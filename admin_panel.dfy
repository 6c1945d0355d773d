/**
 * The administrator page: the list of message documents and the list of tags
 * it holds (`allMessages`, `allTags`), the filtered view it renders
 * (`filteredMessages`), and the operations that tag, untag, filter and merge
 * messages and delete tags.
 */
module AdminPanel {
  import opened Wrappers
  import opened Ids
  import opened Seqs
  import opened Text
  import opened TagRules
  import DemoAuth
  import AppGuards

  type Tag = DemoAuth.Tag

  /**
   * A message document. A document without `tags` is held as the empty list
   * and one without `text` as the empty string: every rule below treats the
   * two alike.
   */
  datatype Message = Message(
    id: string,
    text: string,
    tags: seq<TagId>,
    mergedFrom: seq<string>,
    mergedAt: Option<Millis>,
    mergedInto: Option<string>,
    isMerged: bool)

  /** Document ids are unique within the collection. */
  ghost predicate UniqueIds(msgs: seq<Message>)
  {
    forall i, j :: 0 <= i < j < |msgs| ==> msgs[i].id != msgs[j].id
  }

  function IdsOf(msgs: seq<Message>): (ids: seq<string>)
    ensures |ids| == |msgs| && forall k :: 0 <= k < |msgs| ==> ids[k] == msgs[k].id
  {
    seq(|msgs|, k requires 0 <= k < |msgs| => msgs[k].id)
  }

  function TagsOf(msgs: seq<Message>): (tags: seq<seq<TagId>>)
    ensures |tags| == |msgs| && forall k :: 0 <= k < |msgs| ==> tags[k] == msgs[k].tags
  {
    seq(|msgs|, k requires 0 <= k < |msgs| => msgs[k].tags)
  }

  lemma UniqueIdsCons(m: Message, rest: seq<Message>)
    requires UniqueIds(rest) && forall x :: x in rest ==> x.id != m.id
    ensures UniqueIds([m] + rest)
  {
    var r := [m] + rest;
    forall i, j | 0 <= i < j < |r| ensures r[i].id != r[j].id {
      assert r[j] == rest[j - 1];
      if i > 0 {
        assert r[i] == rest[i - 1];
      }
    }
  }

  /** Filtering a collection with unique ids gives a list with unique ids. */
  lemma {:induction false} FilterKeepsUniqueIds(msgs: seq<Message>, p: Message -> bool)
    ensures UniqueIds(msgs) ==> UniqueIds(Filter(msgs, p))
  {
    if msgs != [] && UniqueIds(msgs) {
      var rest := msgs[1..];
      assert UniqueIds(rest);
      FilterKeepsUniqueIds(rest, p);
      if p(msgs[0]) {
        forall x | x in Filter(rest, p) ensures x.id != msgs[0].id {
          var j :| 0 <= j < |rest| && rest[j] == x;
          assert msgs[j + 1] == x;
        }
        UniqueIdsCons(msgs[0], Filter(rest, p));
      }
    }
  }

  // ---------------------------------------------------------------- filtering

  /** The test `filterMessages` applies to one message; `searchText` is already lower-cased. */
  function Matches(m: Message, tagFilter: string, searchText: string): (b: bool)
    ensures tagFilter == "" && searchText == "" ==> b
    ensures b && tagFilter != "" ==> tagFilter in m.tags
    ensures b && searchText != "" ==> |searchText| <= |m.text|
  {
    && (tagFilter == "" || tagFilter in m.tags)
    && (searchText == "" || Includes(Lower(m.text), searchText))
  }

  /**
   * `allMessages.filter(...)` with the tag selected in the drop-down and the
   * text typed in the search box.
   */
  function FilterView(msgs: seq<Message>, tagFilter: string, searchInput: string): (r: seq<Message>)
    ensures forall m :: m in r <==>
      && m in msgs
      && (tagFilter == "" || tagFilter in m.tags)
      && (searchInput == "" || Includes(Lower(m.text), Lower(searchInput)))
    ensures IsSubsequence(r, msgs)
    ensures forall m :: multiset(r)[m] == if m in r then multiset(msgs)[m] else 0
  {
    var p := (m: Message) => Matches(m, tagFilter, Lower(searchInput));
    FilterIsSubsequence(msgs, p);
    FilterCounts(msgs, p);
    Filter(msgs, p)
  }

  /** With no tag selected and an empty search box, every message is shown, in order. */
  lemma EmptyFiltersShowAll(msgs: seq<Message>)
    ensures FilterView(msgs, "", "") == msgs
  {
    FilterKeepsAll(msgs, (m: Message) => Matches(m, "", Lower("")));
  }

  /** The search ignores the case of what is typed. */
  lemma SearchIgnoresInputCase(msgs: seq<Message>, tagFilter: string, searchInput: string)
    ensures FilterView(msgs, tagFilter, Lower(searchInput)) == FilterView(msgs, tagFilter, searchInput)
  {
    LowerIdempotent(searchInput);
  }

  // ----------------------------------------------------------- tag rendering

  /** `allTags.find(t => t.id === tagId)`: the first tag with that id. */
  function FindTag(tags: seq<Tag>, tagId: TagId): (r: Option<Tag>)
    ensures r.None? <==> forall t :: t in tags ==> t.id != tagId
    ensures r.Some? ==> exists k :: 0 <= k < |tags| && tags[k] == r.value && r.value.id == tagId
                                    && forall j :: 0 <= j < k ==> tags[j].id != tagId
  {
    if tags == [] then None
    else if tags[0].id == tagId then Some(tags[0])
    else
      var r := FindTag(tags[1..], tagId);
      if r.Some? then
        var k :| 0 <= k < |tags[1..]| && tags[1..][k] == r.value && r.value.id == tagId
                 && forall j :: 0 <= j < k ==> tags[1..][j].id != tagId;
        assert tags[k + 1] == r.value;
        assert forall j :: 1 <= j < k + 1 ==> tags[j] == tags[1..][j - 1];
        r
      else r
  }

  /** One entry of a message's tag strip: a named chip with its remove button, or nothing. */
  datatype Chip = Blank | Chip(name: string, messageId: string, tagId: TagId)

  /** What `renderMessageTags` produces: the "no tags" marker, or one entry per listed id. */
  datatype TagStrip = NoTags | Chips(chips: seq<Chip>)

  /** The chip for one listed id: `Blank` when no tag has that id. */
  function RenderTagId(messageId: string, tagId: TagId, allTags: seq<Tag>): (c: Chip)
    ensures c == Blank <==> forall t :: t in allTags ==> t.id != tagId
    ensures c.Chip? ==>
      && c.messageId == messageId && c.tagId == tagId
      && FindTag(allTags, tagId).Some? && c.name == FindTag(allTags, tagId).value.name
  {
    match FindTag(allTags, tagId)
    case None => Blank
    case Some(t) => Chip(t.name, messageId, tagId)
  }

  /** `renderMessageTags(message)`; an id that names no tag yields an empty entry instead of failing. */
  function RenderMessageTags(m: Message, allTags: seq<Tag>): (r: TagStrip)
    ensures r == NoTags <==> m.tags == []
    ensures r.Chips? ==> |r.chips| == |m.tags|
    ensures r.Chips? ==> forall k :: 0 <= k < |m.tags| ==>
      && (r.chips[k] == Blank <==> forall t :: t in allTags ==> t.id != m.tags[k])
      && (r.chips[k].Chip? ==>
            && r.chips[k].messageId == m.id && r.chips[k].tagId == m.tags[k]
            && exists t :: t in allTags && t.id == m.tags[k] && t.name == r.chips[k].name)
  {
    if m.tags == [] then NoTags
    else Chips(seq(|m.tags|, k requires 0 <= k < |m.tags| => RenderTagId(m.id, m.tags[k], allTags)))
  }

  /** After a tag is deleted, a message still listing its id renders an empty entry there. */
  lemma DeletedTagRendersBlank(m: Message, allTags: seq<Tag>, tagId: TagId, k: nat)
    requires k < |m.tags| && m.tags[k] == tagId
    ensures var r := RenderMessageTags(m, DemoAuth.WithoutTag(allTags, tagId));
      r.Chips? && r.chips[k] == Blank
  {
  }

  // ------------------------------------------------------- delete-tag cascade

  /** The write `deleteTag` issues for one message: drop the id if the message lists it. */
  function StripTag(m: Message, tagId: TagId): (r: Message)
    ensures tagId !in r.tags
    ensures r == m.(tags := RemoveTag(m.tags, tagId))
    ensures tagId !in m.tags ==> r == m
  {
    if tagId in m.tags then m.(tags := RemoveTag(m.tags, tagId)) else m
  }

  /** The collection after `deleteTag`'s loop: every message with the id rewritten without it. */
  function CascadeDeleteTag(msgs: seq<Message>, tagId: TagId): (r: seq<Message>)
    ensures |r| == |msgs|
    ensures forall k :: 0 <= k < |r| ==> tagId !in r[k].tags
    ensures forall k :: 0 <= k < |r| ==> tagId !in msgs[k].tags ==> r[k] == msgs[k]
    ensures forall k :: 0 <= k < |r| ==> r[k] == msgs[k].(tags := RemoveTag(msgs[k].tags, tagId))
    ensures IdsOf(r) == IdsOf(msgs)
  {
    seq(|msgs|, k requires 0 <= k < |msgs| => StripTag(msgs[k], tagId))
  }

  /** Running the cascade again finds nothing left to rewrite. */
  lemma CascadeIdempotent(msgs: seq<Message>, tagId: TagId)
    ensures CascadeDeleteTag(CascadeDeleteTag(msgs, tagId), tagId) == CascadeDeleteTag(msgs, tagId)
  {
  }

  // -------------------------------------------------------------------- merge

  /** `allMessages.filter(msg => selectedIds.includes(msg.id))`. */
  function SelectedMessages(msgs: seq<Message>, selectedIds: seq<string>): (r: seq<Message>)
    ensures forall m :: m in r <==> m in msgs && m.id in selectedIds
    ensures IsSubsequence(r, msgs)
    ensures UniqueIds(msgs) ==> UniqueIds(r)
  {
    FilterKeepsUniqueIds(msgs, (m: Message) => m.id in selectedIds);
    FilterIsSubsequence(msgs, (m: Message) => m.id in selectedIds);
    Filter(msgs, (m: Message) => m.id in selectedIds)
  }

  /** Every ticked message is selected as many times as the collection holds it, and no other message is. */
  lemma SelectedMessagesCounts(msgs: seq<Message>, selectedIds: seq<string>)
    ensures forall m :: multiset(SelectedMessages(msgs, selectedIds))[m]
                        == if m.id in selectedIds then multiset(msgs)[m] else 0
  {
    FilterCounts(msgs, (m: Message) => m.id in selectedIds);
  }

  /** The first selected message, the others, and the union of their tags. */
  datatype MergePlan = MergePlan(target: Message, others: seq<Message>, union: seq<TagId>)

  /**
   * The plan of `mergeSelectedMessages`: `None` when no message is ticked;
   * otherwise the ticked messages in collection order, the first of them as
   * the target.
   */
  function PlanMerge(msgs: seq<Message>, selectedIds: seq<string>): (r: Option<MergePlan>)
    ensures r.None? <==> forall m :: m in msgs ==> m.id !in selectedIds
    ensures r.Some? ==> |SelectedMessages(msgs, selectedIds)| == 1 + |r.value.others|
  {
    var selected := SelectedMessages(msgs, selectedIds);
    if selected == [] then None
    else Some(MergePlan(selected[0], selected[1..], TagUnion(selected[0].tags, TagsOf(selected[1..]))))
  }

  /**
   * The target and the merged-away messages are the ticked messages in
   * collection order, so `mergedFrom` lists the other ids in that order.
   */
  lemma PlanMergeKeepsCollectionOrder(msgs: seq<Message>, selectedIds: seq<string>)
    requires PlanMerge(msgs, selectedIds).Some?
    ensures var plan := PlanMerge(msgs, selectedIds).value;
      && IsSubsequence([plan.target] + plan.others, msgs)
      && IsSubsequence(IdsOf(plan.others), IdsOf(msgs))
  {
    var selected := SelectedMessages(msgs, selectedIds);
    var plan := PlanMerge(msgs, selectedIds).value;
    assert selected != [] && plan.target == selected[0] && plan.others == selected[1..];
    assert [plan.target] + plan.others == selected;
    SelectedIdsInCollectionOrder(selected, msgs);
  }

  /** The ids after the first of an in-order selection are in collection order. */
  lemma SelectedIdsInCollectionOrder(selected: seq<Message>, msgs: seq<Message>)
    requires selected != [] && IsSubsequence(selected, msgs)
    ensures IsSubsequence(IdsOf(selected[1..]), IdsOf(msgs))
  {
    SubsequenceMaps(selected, msgs);
    var ids := IdsOf(selected);
    SubsequenceTail(ids, IdsOf(msgs));
    assert ids[1..] == IdsOf(selected[1..]);
  }

  /** Taking the ids keeps a subsequence a subsequence. */
  lemma {:induction false} SubsequenceMaps(a: seq<Message>, b: seq<Message>)
    requires IsSubsequence(a, b)
    ensures IsSubsequence(IdsOf(a), IdsOf(b))
    decreases |b|
  {
    if a != [] && b != [] {
      assert IdsOf(a)[1..] == IdsOf(a[1..]);
      assert IdsOf(b)[1..] == IdsOf(b[1..]);
      if a[0] == b[0] {
        SubsequenceMaps(a[1..], b[1..]);
      } else {
        SubsequenceMaps(a, b[1..]);
        SubsequenceOfTail(IdsOf(a), IdsOf(b));
      }
    }
  }

  /** The write to the target: `{ tags: union, mergedFrom: other ids, mergedAt: now }`. */
  function WriteTarget(m: Message, plan: MergePlan, now: Millis): (r: Message)
    ensures r.(tags := m.tags, mergedFrom := m.mergedFrom, mergedAt := m.mergedAt) == m
    ensures m.id != plan.target.id ==> r == m
    ensures m.id == plan.target.id ==> r.mergedAt == Some(now) && |r.mergedFrom| == |plan.others|
  {
    if m.id == plan.target.id
    then m.(tags := plan.union, mergedFrom := IdsOf(plan.others), mergedAt := Some(now))
    else m
  }

  /** The write to a merged-away message: `{ mergedInto: target id, isMerged: true }`. */
  function MarkMerged(m: Message, targetId: string): (r: Message)
    ensures r.(mergedInto := m.mergedInto, isMerged := m.isMerged) == m
    ensures r.mergedInto == Some(targetId) && r.isMerged
  {
    m.(mergedInto := Some(targetId), isMerged := true)
  }

  function MarkIfListed(m: Message, ids: seq<string>, targetId: string): Message
  {
    if m.id in ids then MarkMerged(m, targetId) else m
  }

  /** The collection after all of `mergeSelectedMessages`' writes. */
  function MergeResult(msgs: seq<Message>, plan: MergePlan, now: Millis): (r: seq<Message>)
    ensures |r| == |msgs| && IdsOf(r) == IdsOf(msgs)
  {
    seq(|msgs|, k requires 0 <= k < |msgs| =>
      MarkIfListed(WriteTarget(msgs[k], plan, now), IdsOf(plan.others), plan.target.id))
  }

  /** No other selected message carries the target's id. */
  lemma TargetNotAmongOthers(msgs: seq<Message>, selectedIds: seq<string>)
    requires UniqueIds(msgs) && PlanMerge(msgs, selectedIds).Some?
    ensures var plan := PlanMerge(msgs, selectedIds).value;
      plan.target.id !in IdsOf(plan.others)
  {
    var selected := SelectedMessages(msgs, selectedIds);
    var plan := PlanMerge(msgs, selectedIds).value;
    forall j | 0 <= j < |plan.others| ensures IdsOf(plan.others)[j] != plan.target.id {
      assert plan.others[j] == selected[j + 1];
    }
  }

  /** A message is among the merged-away ones exactly when it is selected and is not the target. */
  lemma OthersAreTheRestOfSelection(msgs: seq<Message>, selectedIds: seq<string>, k: nat)
    requires UniqueIds(msgs) && PlanMerge(msgs, selectedIds).Some? && k < |msgs|
    ensures var plan := PlanMerge(msgs, selectedIds).value;
      msgs[k].id in IdsOf(plan.others) <==> msgs[k].id in selectedIds && msgs[k].id != plan.target.id
  {
    var selected := SelectedMessages(msgs, selectedIds);
    var plan := PlanMerge(msgs, selectedIds).value;
    var otherIds := IdsOf(plan.others);
    TargetNotAmongOthers(msgs, selectedIds);
    if msgs[k].id in otherIds {
      var j :| 0 <= j < |otherIds| && otherIds[j] == msgs[k].id;
      assert plan.others[j] in selected;
    }
    if msgs[k].id in selectedIds && msgs[k].id != plan.target.id {
      assert msgs[k] in selected;
      var j :| 0 <= j < |selected| && selected[j] == msgs[k];
      assert plan.others[j - 1] == msgs[k];
      assert otherIds[j - 1] == msgs[k].id;
    }
  }

  /** The merge target is the first message of the collection whose id was selected. */
  lemma MergeTargetIsFirstSelected(msgs: seq<Message>, selectedIds: seq<string>)
    requires PlanMerge(msgs, selectedIds).Some?
    ensures var plan := PlanMerge(msgs, selectedIds).value;
      exists k0 :: 0 <= k0 < |msgs| && msgs[k0] == plan.target && msgs[k0].id in selectedIds
                   && forall j :: 0 <= j < k0 ==> msgs[j].id !in selectedIds
  {
    FilterFirst(msgs, (m: Message) => m.id in selectedIds);
  }

  /** The target receives the tag union, the merged ids and the merge time, and keeps the rest. */
  lemma MergeWritesTarget(msgs: seq<Message>, selectedIds: seq<string>, now: Millis, k: nat)
    requires UniqueIds(msgs) && PlanMerge(msgs, selectedIds).Some? && k < |msgs|
    requires msgs[k].id == PlanMerge(msgs, selectedIds).value.target.id
    ensures var plan := PlanMerge(msgs, selectedIds).value;
      MergeResult(msgs, plan, now)[k]
        == msgs[k].(tags := plan.union, mergedFrom := IdsOf(plan.others), mergedAt := Some(now))
  {
    TargetNotAmongOthers(msgs, selectedIds);
  }

  /** Every other selected message is marked as merged into the target and keeps its tags. */
  lemma MergeMarksOthers(msgs: seq<Message>, selectedIds: seq<string>, now: Millis, k: nat)
    requires UniqueIds(msgs) && PlanMerge(msgs, selectedIds).Some? && k < |msgs|
    requires msgs[k].id in selectedIds && msgs[k].id != PlanMerge(msgs, selectedIds).value.target.id
    ensures var plan := PlanMerge(msgs, selectedIds).value;
      MergeResult(msgs, plan, now)[k] == MarkMerged(msgs[k], plan.target.id)
  {
    OthersAreTheRestOfSelection(msgs, selectedIds, k);
  }

  /** Messages that were not selected are left as they were. */
  lemma MergeLeavesUnselected(msgs: seq<Message>, selectedIds: seq<string>, now: Millis, k: nat)
    requires UniqueIds(msgs) && PlanMerge(msgs, selectedIds).Some? && k < |msgs|
    requires msgs[k].id !in selectedIds
    ensures MergeResult(msgs, PlanMerge(msgs, selectedIds).value, now)[k] == msgs[k]
  {
    var plan := PlanMerge(msgs, selectedIds).value;
    assert plan.target in SelectedMessages(msgs, selectedIds);
    OthersAreTheRestOfSelection(msgs, selectedIds, k);
  }

  /** The tags the merge gives its target: no duplicates, the target's own first, then the others'. */
  lemma MergedTagsAreUnion(msgs: seq<Message>, selectedIds: seq<string>)
    requires PlanMerge(msgs, selectedIds).Some?
    ensures var plan := PlanMerge(msgs, selectedIds).value;
      && NoDup(plan.union)
      && (var own := AddAll([], plan.target.tags); |own| <= |plan.union| && plan.union[..|own|] == own)
      && (NoDup(plan.target.tags) ==> plan.union[..|plan.target.tags|] == plan.target.tags)
      && forall t :: t in plan.union <==>
           t in plan.target.tags || exists i :: 0 <= i < |plan.others| && t in plan.others[i].tags
  {
  }

  /** How `mergeSelectedMessages` ends. */
  datatype MergeOutcome =
    | TooFewSelected    // fewer than two boxes ticked: an alert, nothing written
    | NoTarget          // no ticked id is in the collection: the source throws before writing
    | Merged(count: nat) // the alert reports `count` merged messages

  /** The write `{ tags }` (merged into the document) to the message at position `k`. */
  function WithTags(msgs: seq<Message>, k: nat, tags: seq<TagId>): (r: seq<Message>)
    requires k < |msgs|
    ensures |r| == |msgs| && r[k] == msgs[k].(tags := tags) && IdsOf(r) == IdsOf(msgs)
    ensures forall j :: 0 <= j < |msgs| && j != k ==> r[j] == msgs[j]
  {
    msgs[k := msgs[k].(tags := tags)]
  }

  /** The write `{ mergedInto, isMerged }` to the document with id `id`. */
  function MarkById(msgs: seq<Message>, id: string, targetId: string): (r: seq<Message>)
    ensures |r| == |msgs|
    ensures forall k :: 0 <= k < |msgs| ==> r[k] == MarkIfListed(msgs[k], [id], targetId)
  {
    seq(|msgs|, k requires 0 <= k < |msgs| => MarkIfListed(msgs[k], [id], targetId))
  }

  /** The writes `{ mergedInto, isMerged }`, one per id of `ids`, in turn. */
  method MarkEach(msgs: seq<Message>, ids: seq<string>, targetId: string) returns (r: seq<Message>)
    ensures |r| == |msgs|
    ensures forall k :: 0 <= k < |msgs| ==> r[k] == MarkIfListed(msgs[k], ids, targetId)
  {
    r := msgs;
    var i := 0;
    while i < |ids|
      invariant 0 <= i <= |ids|
      invariant |r| == |msgs|
      invariant forall k :: 0 <= k < |r| ==> r[k] == MarkIfListed(msgs[k], ids[..i], targetId)
    {
      assert ids[..i + 1] == ids[..i] + [ids[i]];
      r := MarkById(r, ids[i], targetId);
      i := i + 1;
    }
    assert ids[..|ids|] == ids;
  }

  /** Where the document with that id sits, if anywhere: the lookup that stands for reading it with `getDoc` and testing `exists()`. */
  function IndexOfId(msgs: seq<Message>, id: string): (r: Option<nat>)
    ensures r.None? <==> forall m :: m in msgs ==> m.id != id
    ensures r.Some? ==> r.value < |msgs| && msgs[r.value].id == id
  {
    if msgs == [] then None
    else if msgs[0].id == id then Some(0)
    else
      var r := IndexOfId(msgs[1..], id);
      if r.Some? then Some(r.value + 1) else None
  }

  /** The writes of `mergeSelectedMessages` for a plan: the target's, then one per merged-away document. */
  method ApplyMerge(msgs: seq<Message>, plan: MergePlan, now: Millis) returns (r: seq<Message>)
    ensures r == MergeResult(msgs, plan, now)
    ensures UniqueIds(msgs) ==> UniqueIds(r)
  {
    var written := seq(|msgs|, k requires 0 <= k < |msgs| => WriteTarget(msgs[k], plan, now));
    r := MarkEach(written, IdsOf(plan.others), plan.target.id);
    assert IdsOf(r) == IdsOf(msgs);
  }

  /** The administrator page's state. */
  class AdminView {
    var allMessages: seq<Message>
    var allTags: seq<Tag>
    var filteredMessages: seq<Message>

    ghost predicate Valid()
      reads this
    {
      UniqueIds(allMessages)
    }

    /** `loadAdminData`: the loaded collection and tags, with the filter cleared. */
    constructor (messages: seq<Message>, tags: seq<Tag>)
      requires UniqueIds(messages)
      ensures Valid()
      ensures allMessages == messages && filteredMessages == messages && allTags == tags
    {
      allMessages, allTags, filteredMessages := messages, tags, messages;
    }

    /** `filterMessages()` with the drop-down's tag id and the search box's text. */
    method FilterMessages(tagFilter: string, searchInput: string)
      modifies this
      ensures filteredMessages == FilterView(allMessages, tagFilter, searchInput)
      ensures allMessages == old(allMessages) && allTags == old(allTags)
    {
      filteredMessages := FilterView(allMessages, tagFilter, searchInput);
    }

    /** `clearFilters()`. */
    method ClearFilters()
      modifies this
      ensures filteredMessages == allMessages
      ensures allMessages == old(allMessages) && allTags == old(allTags)
    {
      filteredMessages := allMessages;
    }

    /**
     * `addNewTag()`: the checks, then a new tag document `docId` created at
     * `now`, then the tags reloaded.
     */
    method AddNewTag(input: string, docId: string, now: Millis) returns (check: AppGuards.TagNameCheck)
      modifies this
      ensures check == AppGuards.CheckNewTagName(input, old(allTags))
      ensures check.Accepted? ==> allTags == old(allTags) + [DemoAuth.Tag(docId, check.name, now)]
      ensures !check.Accepted? ==> allTags == old(allTags)
      ensures AppGuards.DistinctNames(old(allTags)) ==> AppGuards.DistinctNames(allTags)
      ensures allMessages == old(allMessages) && filteredMessages == old(filteredMessages)
    {
      check := AppGuards.CheckNewTagName(input, allTags);
      if check.Accepted? {
        if AppGuards.DistinctNames(allTags) {
          AppGuards.AcceptedNameKeepsNamesDistinct(input, allTags, docId, now);
        }
        allTags := allTags + [DemoAuth.Tag(docId, check.name, now)];
      }
    }

    /** `addTagToMessage(messageId, tagId)`: appends the id unless it is empty or already listed. */
    method AddTagToMessage(messageId: string, tagId: TagId)
      requires Valid()
      modifies this
      ensures Valid()
      ensures var k := IndexOfId(old(allMessages), messageId);
        if tagId == "" || k.None? || tagId in old(allMessages)[k.value].tags then
          allMessages == old(allMessages) && filteredMessages == old(filteredMessages)
        else
          && allMessages == WithTags(old(allMessages), k.value, old(allMessages)[k.value].tags + [tagId])
          && filteredMessages == allMessages
      ensures allTags == old(allTags)
    {
      if tagId == "" {
        return;
      }
      var k := IndexOfId(allMessages, messageId);
      if k.None? {
        return;
      }
      var current := allMessages[k.value].tags;
      if tagId !in current {
        allMessages := WithTags(allMessages, k.value, AddTagIfAbsent(current, tagId));
        assert IdsOf(allMessages) == IdsOf(old(allMessages));
        filteredMessages := allMessages;
      }
    }

    /** `removeTagFromMessage(messageId, tagId)`: rewrites the message's tags without the id. */
    method RemoveTagFromMessage(messageId: string, tagId: TagId)
      requires Valid()
      modifies this
      ensures Valid()
      ensures var k := IndexOfId(old(allMessages), messageId);
        if k.None? then
          allMessages == old(allMessages) && filteredMessages == old(filteredMessages)
        else
          && allMessages == WithTags(old(allMessages), k.value, RemoveTag(old(allMessages)[k.value].tags, tagId))
          && filteredMessages == allMessages
      ensures allTags == old(allTags)
    {
      var k := IndexOfId(allMessages, messageId);
      if k.None? {
        return;
      }
      allMessages := WithTags(allMessages, k.value, RemoveTag(allMessages[k.value].tags, tagId));
      assert IdsOf(allMessages) == IdsOf(old(allMessages));
      filteredMessages := allMessages;
    }

    /**
     * `deleteTag(tagId)` once confirmed: the tag is deleted, each message
     * listing it is rewritten without it, and tags and messages are reloaded.
     */
    method DeleteTag(tagId: TagId, confirmed: bool)
      requires Valid()
      modifies this
      ensures Valid()
      ensures !confirmed ==>
        allMessages == old(allMessages) && allTags == old(allTags) && filteredMessages == old(filteredMessages)
      ensures confirmed ==>
        && allTags == DemoAuth.WithoutTag(old(allTags), tagId)
        && allMessages == CascadeDeleteTag(old(allMessages), tagId)
        && filteredMessages == allMessages
    {
      if !confirmed {
        return;
      }
      var i := 0;
      while i < |allMessages|
        invariant 0 <= i <= |allMessages| == |old(allMessages)|
        invariant forall k :: 0 <= k < i ==> allMessages[k] == StripTag(old(allMessages)[k], tagId)
        invariant forall k :: i <= k < |allMessages| ==> allMessages[k] == old(allMessages)[k]
        invariant allTags == old(allTags)
      {
        var msg := allMessages[i];
        if tagId in msg.tags {
          allMessages := WithTags(allMessages, i, RemoveTag(msg.tags, tagId));
        }
        i := i + 1;
      }
      assert allMessages == CascadeDeleteTag(old(allMessages), tagId);
      assert IdsOf(allMessages) == IdsOf(old(allMessages));
      allTags := DemoAuth.WithoutTag(allTags, tagId);
      filteredMessages := allMessages;
    }

    /** `mergeSelectedMessages()` with the ids of the ticked boxes, stamped at `now`. */
    method MergeSelectedMessages(selectedIds: seq<string>, now: Millis) returns (outcome: MergeOutcome)
      requires Valid()
      modifies this
      ensures Valid()
      ensures allTags == old(allTags)
      ensures |selectedIds| < 2 ==> outcome == TooFewSelected
      ensures |selectedIds| >= 2 && PlanMerge(old(allMessages), selectedIds).None? ==> outcome == NoTarget
      ensures !outcome.Merged? ==>
        allMessages == old(allMessages) && filteredMessages == old(filteredMessages)
      ensures |selectedIds| >= 2 && PlanMerge(old(allMessages), selectedIds).Some? ==>
        && outcome == Merged(|SelectedMessages(old(allMessages), selectedIds)|)
        && allMessages == MergeResult(old(allMessages), PlanMerge(old(allMessages), selectedIds).value, now)
        && filteredMessages == allMessages
    {
      if |selectedIds| < 2 {
        return TooFewSelected;
      }
      var msgs := allMessages;
      var planned := PlanMerge(msgs, selectedIds);
      if planned.None? {
        return NoTarget;
      }
      var current := ApplyMerge(msgs, planned.value, now);
      allMessages := current;
      filteredMessages := current;
      outcome := Merged(1 + |planned.value.others|);
    }
  }
}
