/**
 * The expressions the administrator screen uses on a message's list of tag
 * ids: add-if-absent, remove-by-filter and the insertion-ordered union used
 * when messages are merged.
 */
module TagRules {
  import opened Seqs

  type TagId = string

  /** `currentTags.includes(tagId) ? currentTags : [...currentTags, tagId]`. */
  function AddTagIfAbsent(tags: seq<TagId>, tagId: TagId): (r: seq<TagId>)
    ensures forall t :: t in r <==> t in tags || t == tagId
    ensures |tags| <= |r| <= |tags| + 1 && r[..|tags|] == tags
    ensures tagId in tags ==> r == tags
    ensures NoDup(tags) ==> NoDup(r)
  {
    if tagId in tags then tags else tags + [tagId]
  }

  /** Adding a tag that is already there changes nothing, so adding twice is adding once. */
  lemma AddTagIfAbsentIdempotent(tags: seq<TagId>, tagId: TagId)
    ensures AddTagIfAbsent(AddTagIfAbsent(tags, tagId), tagId) == AddTagIfAbsent(tags, tagId)
  {
  }

  /** `currentTags.filter(t => t !== tagId)`. */
  function RemoveTag(tags: seq<TagId>, tagId: TagId): (r: seq<TagId>)
    ensures tagId !in r
    ensures forall t :: t in r <==> t in tags && t != tagId
    ensures IsSubsequence(r, tags)
    ensures forall t :: t != tagId ==> multiset(r)[t] == multiset(tags)[t]
    ensures |r| == |tags| - multiset(tags)[tagId]
    ensures tagId !in tags ==> r == tags
    ensures NoDup(tags) ==> NoDup(r)
  {
    FilterIsSubsequence(tags, (t: TagId) => t != tagId);
    FilterCounts(tags, (t: TagId) => t != tagId);
    FilterDropsOne(tags, (t: TagId) => t != tagId, tagId);
    FilterKeepsAll(tags, (t: TagId) => t != tagId);
    FilterNoDup(tags, (t: TagId) => t != tagId);
    Filter(tags, (t: TagId) => t != tagId)
  }

  /** Removing a tag that was just added (and was not there before) restores the list. */
  lemma {:induction false} RemoveUndoesAdd(tags: seq<TagId>, tagId: TagId)
    requires tagId !in tags
    ensures RemoveTag(AddTagIfAbsent(tags, tagId), tagId) == tags
  {
    var p := (t: TagId) => t != tagId;
    FilterConcat(tags, [tagId], p);
    FilterKeepsAll(tags, p);
    assert Filter([tagId], p) == [];
  }

  /** Removing twice is removing once. */
  lemma RemoveTagIdempotent(tags: seq<TagId>, tagId: TagId)
    ensures RemoveTag(RemoveTag(tags, tagId), tagId) == RemoveTag(tags, tagId)
  {
  }

  /**
   * Adding each of `xs` in turn to a JavaScript `Set` whose insertion order
   * is `acc`: the set's contents afterwards, in insertion order.
   */
  function AddAll(acc: seq<TagId>, xs: seq<TagId>): (r: seq<TagId>)
    ensures forall t :: t in r <==> t in acc || t in xs
    ensures |acc| <= |r| && r[..|acc|] == acc
    ensures NoDup(acc) ==> NoDup(r)
    decreases |xs|
  {
    if xs == [] then acc else AddAll(AddTagIfAbsent(acc, xs[0]), xs[1..])
  }

  /** A list without duplicates goes into a set unchanged and in order. */
  lemma {:induction false} AddAllDistinct(acc: seq<TagId>, xs: seq<TagId>)
    ensures NoDup(acc + xs) ==> AddAll(acc, xs) == acc + xs
    decreases |xs|
  {
    if xs != [] && NoDup(acc + xs) {
      var acc' := acc + [xs[0]];
      assert acc + xs == acc' + xs[1..];
      assert (acc + xs)[|acc|] == xs[0];
      assert forall i :: 0 <= i < |acc| ==> acc[i] == (acc + xs)[i] != (acc + xs)[|acc|];
      assert AddTagIfAbsent(acc, xs[0]) == acc';
      AddAllDistinct(acc', xs[1..]);
    }
  }

  /** `others.forEach(tags => tags.forEach(id => set.add(id)))` starting from the set `acc`. */
  function UnionInto(acc: seq<TagId>, others: seq<seq<TagId>>): (r: seq<TagId>)
    ensures forall t :: t in r <==> t in acc || exists i :: 0 <= i < |others| && t in others[i]
    ensures |acc| <= |r| && r[..|acc|] == acc
    ensures NoDup(acc) ==> NoDup(r)
    decreases |others|
  {
    if others == [] then acc
    else
      var rest := others[1..];
      assert forall i :: 0 <= i < |rest| ==> rest[i] == others[i + 1];
      var r := UnionInto(AddAll(acc, others[0]), rest);
      forall t | t !in others[0] && exists i :: 0 <= i < |others| && t in others[i]
        ensures exists i :: 0 <= i < |rest| && t in rest[i]
      {
        var i :| 0 <= i < |others| && t in others[i];
        assert t in rest[i - 1];
      }
      r
  }

  /** The position of the first occurrence of `t` in `xs`. */
  function FirstIndex(xs: seq<TagId>, t: TagId): (i: nat)
    requires t in xs
    ensures i < |xs| && xs[i] == t && forall j :: 0 <= j < i ==> xs[j] != t
  {
    if xs[0] == t then 0 else 1 + FirstIndex(xs[1..], t)
  }

  /** In a duplicate-free list whose first part is `acc`, what follows `acc` is not in it. */
  lemma BeyondPrefixIsNew(r: seq<TagId>, acc: seq<TagId>, q: nat)
    requires NoDup(r) && |acc| <= q < |r| && r[..|acc|] == acc
    ensures r[q] !in acc
  {
    forall i | 0 <= i < |acc| ensures acc[i] != r[q] {
      assert acc[i] == r[i];
    }
  }

  /**
   * A `Set` reads back in insertion order: the ids added after `acc` come in
   * the order of their first occurrence in `xs`.
   */
  lemma AddAllInsertionOrder(acc: seq<TagId>, xs: seq<TagId>)
    requires NoDup(acc)
    ensures var r := AddAll(acc, xs);
      forall p, q :: |acc| <= p < q < |r| ==>
        r[p] in xs && r[q] in xs && FirstIndex(xs, r[p]) < FirstIndex(xs, r[q])
  {
    var r := AddAll(acc, xs);
    forall p, q | |acc| <= p < q < |r|
      ensures r[p] in xs && r[q] in xs && FirstIndex(xs, r[p]) < FirstIndex(xs, r[q])
    {
      InsertionOrderAt(acc, xs, p, q);
    }
  }

  /** `AddAllInsertionOrder` for one pair of positions. */
  lemma {:induction false} InsertionOrderAt(acc: seq<TagId>, xs: seq<TagId>, p: nat, q: nat)
    requires NoDup(acc) && |acc| <= p < q < |AddAll(acc, xs)|
    ensures var r := AddAll(acc, xs);
      r[p] in xs && r[q] in xs && FirstIndex(xs, r[p]) < FirstIndex(xs, r[q])
    decreases |xs|
  {
    var r := AddAll(acc, xs);
    assert xs != [];
    var acc' := AddTagIfAbsent(acc, xs[0]);
    assert r == AddAll(acc', xs[1..]);
    BeyondPrefixIsNew(r, acc, p);
    BeyondPrefixIsNew(r, acc, q);
    assert r[q] != xs[0] by {
      if xs[0] !in acc {
        assert r[|acc|] == acc'[|acc|] == xs[0];
      }
    }
    assert r[q] in xs[1..];
    if p >= |acc'| {
      BeyondPrefixIsNew(r, acc', p);
      InsertionOrderAt(acc', xs[1..], p, q);
    } else {
      assert r[p] == xs[0];
    }
  }

  /** The ids of a list of tag lists, one list after the other. */
  function Flatten(xss: seq<seq<TagId>>): (r: seq<TagId>)
    ensures forall t :: t in r <==> exists i :: 0 <= i < |xss| && t in xss[i]
  {
    if xss == [] then []
    else
      var rest := xss[1..];
      assert forall i :: 0 <= i < |rest| ==> rest[i] == xss[i + 1];
      var r := xss[0] + Flatten(rest);
      forall t | exists i :: 0 <= i < |xss| && t in xss[i]
        ensures t in r
      {
        var i :| 0 <= i < |xss| && t in xss[i];
        if i > 0 {
          assert t in rest[i - 1];
        }
      }
      r
  }

  /** Adding `a` and then `b` to a set is adding `a + b`. */
  lemma {:induction false} AddAllConcat(acc: seq<TagId>, a: seq<TagId>, b: seq<TagId>)
    ensures AddAll(acc, a + b) == AddAll(AddAll(acc, a), b)
    decreases |a|
  {
    if a == [] {
      assert a + b == b;
    } else {
      assert (a + b)[0] == a[0] && (a + b)[1..] == a[1..] + b;
      AddAllConcat(AddTagIfAbsent(acc, a[0]), a[1..], b);
    }
  }

  /** Adding the lists one after the other is adding their concatenation. */
  lemma {:induction false} UnionIntoFlattens(acc: seq<TagId>, others: seq<seq<TagId>>)
    ensures UnionInto(acc, others) == AddAll(acc, Flatten(others))
    decreases |others|
  {
    if others != [] {
      UnionIntoFlattens(AddAll(acc, others[0]), others[1..]);
      AddAllConcat(acc, others[0], Flatten(others[1..]));
    }
  }

  /**
   * The merged tag list of `mergeSelectedMessages`: `new Set(targetTags)`,
   * then every other message's tags added in order, read back with `Array.from`.
   */
  function TagUnion(targetTags: seq<TagId>, otherTags: seq<seq<TagId>>): (r: seq<TagId>)
    ensures NoDup(r)
    ensures forall t :: t in r <==> t in targetTags || exists i :: 0 <= i < |otherTags| && t in otherTags[i]
    ensures var own := AddAll([], targetTags); |own| <= |r| && r[..|own|] == own
    ensures NoDup(targetTags) ==> |targetTags| <= |r| && r[..|targetTags|] == targetTags
  {
    AddAllDistinct([], targetTags);
    assert [] + targetTags == targetTags;
    UnionInto(AddAll([], targetTags), otherTags)
  }

  /**
   * The union lists every id once, in the order in which it first occurs in
   * the target's tags followed by the other messages' tags.
   */
  lemma TagUnionInInsertionOrder(targetTags: seq<TagId>, otherTags: seq<seq<TagId>>)
    ensures var all := targetTags + Flatten(otherTags);
      var r := TagUnion(targetTags, otherTags);
      && r == AddAll([], all)
      && forall p, q :: 0 <= p < q < |r| ==> r[p] in all && r[q] in all && FirstIndex(all, r[p]) < FirstIndex(all, r[q])
  {
    var all := targetTags + Flatten(otherTags);
    UnionIntoFlattens(AddAll([], targetTags), otherTags);
    AddAllConcat([], targetTags, Flatten(otherTags));
    AddAllInsertionOrder([], all);
  }
}
