/**
 * Group summaries and the group definition that maintains them. A group
 * summary is a hash-map summary whose id is the group id and whose member
 * set is kept in the member encoding of GroupUtils.
 */
module Group {
  import opened Common
  import opened Summary
  import opened GroupUtils

  /** A group's own summary (composition stands for Java's subclassing). */
  class HashMapGroupContextSummary {
    const hashMap: HashMapContextSummary

    /** `new HashMapGroupContextSummary(gId)`: an empty summary with the group's id. */
    constructor (gId: int)
      ensures fresh(hashMap)
      ensures hashMap.id == gId && hashMap.entries == map[] && hashMap.hashSeedHint == 0
    {
      hashMap := new HashMapContextSummary(gId);
    }

    /** The copy constructor. */
    constructor Copy(other: HashMapGroupContextSummary)
      ensures fresh(hashMap)
      ensures hashMap.id == other.hashMap.id && hashMap.entries == other.hashMap.entries
      ensures hashMap.hashSeedHint == other.hashMap.hashSeedHint
    {
      hashMap := new HashMapContextSummary.Copy(other.hashMap);
    }

    /** `getGroupCopy()`: an independent copy. */
    method GetGroupCopy() returns (c: HashMapGroupContextSummary)
      ensures fresh(c) && fresh(c.hashMap)
      ensures c.hashMap.id == hashMap.id && c.hashMap.entries == hashMap.entries
      ensures c.hashMap.hashSeedHint == hashMap.hashSeedHint
    {
      c := new HashMapGroupContextSummary.Copy(this);
    }

    /** `getMemberIds()`: the decoded member set. */
    method GetMemberIds() returns (ids: set<int>)
      ensures ids == Decoded(ContentOf(hashMap), Members)
    {
      ids := GetGroupMembers(ContentOf(hashMap));
    }

    /** `setMemberIds(ids)`: the member set becomes exactly ids. */
    method SetMemberIds(memberIds: set<int>)
      modifies hashMap
      ensures Decoded(ContentOf(hashMap), Members) == memberIds
      ensures Count(ContentOf(hashMap), Members) == |memberIds|
      ensures SameEncoding(old(ContentOf(hashMap)), ContentOf(hashMap), Declarations)
      ensures SameEncoding(old(ContentOf(hashMap)), ContentOf(hashMap), Aggregations)
      ensures KeepsOtherKeys(old(hashMap.entries), hashMap.entries, {Members})
    {
      SetGroupMembers(hashMap, memberIds);
    }

    /** `addMemberId(id)`. */
    method AddMemberId(id: int)
      modifies hashMap
      ensures Key(Members, old(Count(ContentOf(hashMap), Members))) in hashMap.entries
      ensures hashMap.entries[Key(Members, old(Count(ContentOf(hashMap), Members)))] == id
      ensures Count(ContentOf(hashMap), Members) == old(Count(ContentOf(hashMap), Members)) + 1
      ensures old(Count(ContentOf(hashMap), Members)) >= 0 ==>
        Decoded(ContentOf(hashMap), Members) == old(Decoded(ContentOf(hashMap), Members)) + {id}
      ensures SameEncoding(old(ContentOf(hashMap)), ContentOf(hashMap), Declarations)
      ensures SameEncoding(old(ContentOf(hashMap)), ContentOf(hashMap), Aggregations)
      ensures KeepsOtherKeys(old(hashMap.entries), hashMap.entries, {Members})
    {
      AddGroupMember(hashMap, id);
    }

    /**
     * `addMemberIds(ids)`: addMemberId for each element of the collection,
     * in its iteration order. A repeated id raises the count each time but
     * joins the member set once.
     */
    method AddMemberIds(ids: seq<int>)
      modifies hashMap
      ensures Count(ContentOf(hashMap), Members) == old(Count(ContentOf(hashMap), Members)) + |ids|
      ensures old(Count(ContentOf(hashMap), Members)) >= 0 ==>
        Decoded(ContentOf(hashMap), Members) == old(Decoded(ContentOf(hashMap), Members)) + Elems(ids)
      ensures SameEncoding(old(ContentOf(hashMap)), ContentOf(hashMap), Declarations)
      ensures SameEncoding(old(ContentOf(hashMap)), ContentOf(hashMap), Aggregations)
      ensures KeepsOtherKeys(old(hashMap.entries), hashMap.entries, {Members})
    {
      ghost var c0 := ContentOf(hashMap);
      ghost var e0 := hashMap.entries;
      ghost var added := Decoded(c0, Members);
      for i := 0 to |ids|
        invariant Count(ContentOf(hashMap), Members) == Count(c0, Members) + i
        invariant added == Decoded(c0, Members) + Elems(ids[..i])
        invariant Count(c0, Members) >= 0 ==> Decoded(ContentOf(hashMap), Members) == added
        invariant SameEncoding(c0, ContentOf(hashMap), Declarations)
        invariant SameEncoding(c0, ContentOf(hashMap), Aggregations)
        invariant KeepsOtherKeys(e0, hashMap.entries, {Members})
      {
        ghost var before := ContentOf(hashMap);
        ghost var eb := hashMap.entries;
        AddMemberId(ids[i]);
        KeepsOtherKeysTransitive(e0, eb, hashMap.entries, {Members});
        SameEncodingTransitive(c0, before, ContentOf(hashMap), Declarations);
        SameEncodingTransitive(c0, before, ContentOf(hashMap), Aggregations);
        ElemsPrefixStep(ids, i);
        added := added + {ids[i]};
      }
      assert ids[..|ids|] == ids;
    }
  }

  /**
   * A group defined by a label: nodes join by declaring the group's id in
   * their own summaries.
   */
  class LabeledGroupDefinition {
    const gId: int

    constructor (gId: int)
      ensures this.gId == gId
    {
      this.gId := gId;
    }

    /**
     * `handleContextSummary(current, newSummary)`: when newSummary declares
     * membership in the current group summary's group and its id is not yet
     * a member, the id is added; otherwise nothing changes.
     */
    method HandleContextSummary(current: HashMapGroupContextSummary, newSummary: SummaryView)
      modifies current.hashMap
      ensures var declares := current.hashMap.id in Decoded(newSummary.content, Declarations);
        var known := newSummary.id in old(Decoded(ContentOf(current.hashMap), Members));
        !declares || known ==> current.hashMap.entries == old(current.hashMap.entries)
      ensures old(Count(ContentOf(current.hashMap), Members)) >= 0 ==>
        Decoded(ContentOf(current.hashMap), Members)
        == old(Decoded(ContentOf(current.hashMap), Members))
           + (if current.hashMap.id in Decoded(newSummary.content, Declarations) then {newSummary.id} else {})
      ensures SameEncoding(old(ContentOf(current.hashMap)), ContentOf(current.hashMap), Declarations)
      ensures SameEncoding(old(ContentOf(current.hashMap)), ContentOf(current.hashMap), Aggregations)
      ensures KeepsOtherKeys(old(current.hashMap.entries), current.hashMap.entries, {Members})
    {
      var id := newSummary.id;
      var groupId := current.hashMap.id;
      var groupIds := GetDeclaredMemberships(newSummary.content);
      if groupId in groupIds {
        var memberIds := current.GetMemberIds();
        if id !in memberIds {
          current.AddMemberId(id);
        }
      }
    }

    /**
     * `handleGroupSummary(current, newGroupSummary)`: the members that
     * newGroupSummary lists and the current summary lacks are added; when
     * there are none, nothing changes.
     */
    method HandleGroupSummary(current: HashMapGroupContextSummary, newGroupSummary: SummaryView)
      modifies current.hashMap
      ensures Decoded(newGroupSummary.content, Members) <= old(Decoded(ContentOf(current.hashMap), Members)) ==>
        current.hashMap.entries == old(current.hashMap.entries)
      ensures old(Count(ContentOf(current.hashMap), Members)) >= 0 ==>
        Decoded(ContentOf(current.hashMap), Members)
        == old(Decoded(ContentOf(current.hashMap), Members)) + Decoded(newGroupSummary.content, Members)
      ensures SameEncoding(old(ContentOf(current.hashMap)), ContentOf(current.hashMap), Declarations)
      ensures SameEncoding(old(ContentOf(current.hashMap)), ContentOf(current.hashMap), Aggregations)
      ensures KeepsOtherKeys(old(current.hashMap.entries), current.hashMap.entries, {Members})
    {
      var memberIds := current.GetMemberIds();
      var newMemberIds := GetGroupMembers(newGroupSummary.content);
      newMemberIds := newMemberIds - memberIds;
      if newMemberIds != {} {
        var order := IterationOrder(newMemberIds);
        current.AddMemberIds(order);
      }
    }
  }
}
