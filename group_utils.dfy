/**
 * The group-membership encoding that summaries carry inside their ordinary
 * key/value entries. A set of integers is stored as a count under one key
 * and the elements under the count's prefix followed by an index:
 *
 *   members      "MembersEnumerated" = n,  "Member0" .. "Member<n-1>"
 *   declarations "GroupsEnumerated"  = n,  "Group0"  .. "Group<n-1>"
 *   aggregations "IdsAggregated"     = n,  "Id0"     .. "Id<n-1>"
 *
 * Reading decodes indices 0 .. n-1 (no count: the empty set); writing
 * re-enumerates a whole set from index 0 and then stores the new count.
 */
module GroupUtils {
  import opened Common
  import opened Decimal
  import opened Summary

  /** Ids at or above this offset name groups rather than nodes. */
  const GroupIdOffset: int := 10000

  /** The three sets a summary can carry. */
  datatype Encoding = Members | Declarations | Aggregations

  function Prefix(enc: Encoding): string {
    match enc
    case Members => "Member"
    case Declarations => "Group"
    case Aggregations => "Id"
  }

  function CountKey(enc: Encoding): string {
    match enc
    case Members => "MembersEnumerated"
    case Declarations => "GroupsEnumerated"
    case Aggregations => "IdsAggregated"
  }

  /** The key of the element at index i: the prefix followed by Integer.toString(i). */
  function Key(enc: Encoding, i: int): string {
    Prefix(enc) + IntToString(i)
  }

  /** Distinct indices give distinct keys. */
  lemma KeyInjective(enc: Encoding)
    ensures forall i, j {:trigger Key(enc, i), Key(enc, j)} :: Key(enc, i) == Key(enc, j) ==> i == j
  {
    forall i, j | Key(enc, i) == Key(enc, j)
      ensures i == j
    {
      PrefixedInjective(Prefix(enc), i, j);
    }
  }

  /**
   * No key of one encoding is a key of another, and no element key is a
   * count key: the three sets never overwrite one another.
   */
  lemma KeysApart(a: Encoding, b: Encoding, i: int, j: int)
    ensures a != b ==> Key(a, i) != Key(b, j)
    ensures Key(a, i) != CountKey(b)
    ensures a != b ==> CountKey(a) != CountKey(b)
  {
    assert Key(a, i)[0] == Prefix(a)[0];
    assert Key(b, j)[0] == Prefix(b)[0];
    if a == b {
      var word := CountKey(a)[|Prefix(a)|..];
      assert CountKey(a) == Prefix(a) + word;
      PrefixedNotWord(Prefix(a), i, word);
    }
  }

  /** The number stored under the count key; an absent count reads as 0. */
  function Count(c: Content, enc: Encoding): int {
    var n := Lookup(c, CountKey(enc));
    if n.Some? then n.value else 0
  }

  /** A looked-up value as a set: empty for null (a null element is dropped). */
  function Found(v: Option<int>): set<int> {
    if v.Some? then {v.value} else {}
  }

  /** The values found under the element keys of indices 0 .. n-1 (absent ones skipped). */
  function Listed(c: Content, enc: Encoding, n: int): set<int>
    decreases n
  {
    if n <= 0 then {} else Listed(c, enc, n - 1) + Found(Lookup(c, Key(enc, n - 1)))
  }

  /** x is listed below n exactly when some index below n holds x. */
  lemma {:induction false} ListedMember(c: Content, enc: Encoding, n: int, x: int)
    ensures x in Listed(c, enc, n) <==> exists i :: 0 <= i < n && Lookup(c, Key(enc, i)) == Some(x)
    decreases n
  {
    if n > 0 {
      ListedMember(c, enc, n - 1, x);
      if x in Listed(c, enc, n) && x !in Listed(c, enc, n - 1) {
        assert Lookup(c, Key(enc, n - 1)) == Some(x);
      }
    }
  }

  /** The set a summary carries for one encoding. */
  function Decoded(c: Content, enc: Encoding): set<int> {
    Listed(c, enc, Count(c, enc))
  }

  /** Two contents agree on everything one encoding reads. */
  ghost predicate SameEncoding(c: Content, d: Content, enc: Encoding) {
    && Lookup(c, CountKey(enc)) == Lookup(d, CountKey(enc))
    && forall i :: Lookup(c, Key(enc, i)) == Lookup(d, Key(enc, i))
  }

  lemma SameEncodingDecodes(c: Content, d: Content, enc: Encoding)
    requires SameEncoding(c, d, enc)
    ensures Count(c, enc) == Count(d, enc)
    ensures Decoded(c, enc) == Decoded(d, enc)
  {
    ListedAgree(c, d, enc, Count(c, enc));
  }

  lemma SameEncodingTransitive(c: Content, d: Content, f: Content, enc: Encoding)
    requires SameEncoding(c, d, enc) && SameEncoding(d, f, enc)
    ensures SameEncoding(c, f, enc)
  {
  }

  /** Storing a key that belongs to another encoding leaves this one as it was. */
  lemma PutOutside(e: map<string, int>, other: Encoding, i: int, v: int, enc: Encoding)
    requires other != enc
    ensures SameEncoding(Entries(e), Entries(e[Key(other, i) := v]), enc)
    ensures SameEncoding(Entries(e), Entries(e[CountKey(other) := v]), enc)
  {
    KeysApart(enc, other, 0, i);
    KeysApart(other, enc, i, 0);
    forall j ensures Lookup(Entries(e), Key(enc, j)) == Lookup(Entries(e[Key(other, i) := v]), Key(enc, j)) {
      KeysApart(enc, other, j, i);
    }
    forall j ensures Lookup(Entries(e), Key(enc, j)) == Lookup(Entries(e[CountKey(other) := v]), Key(enc, j)) {
      KeysApart(enc, other, j, i);
    }
  }

  /** Removing a key that belongs to another encoding leaves this one as it was. */
  lemma RemoveOutside(e: map<string, int>, other: Encoding, i: int, enc: Encoding)
    requires other != enc
    ensures SameEncoding(Entries(e), Entries(e - {Key(other, i)}), enc)
  {
    KeysApart(other, enc, i, 0);
    forall j ensures Lookup(Entries(e), Key(enc, j)) == Lookup(Entries(e - {Key(other, i)}), Key(enc, j)) {
      KeysApart(enc, other, j, i);
    }
  }

  /**
   * Reads one encoding the way getGroupMembers, getDeclaredMemberships and
   * getAggregatedIds do: look up the count, then each index below it.
   */
  method ReadEnumerated(c: Content, enc: Encoding) returns (ids: set<int>)
    ensures ids == Decoded(c, enc)
  {
    ids := {};
    var n := Lookup(c, CountKey(enc));
    if n.Some? {
      var i := 0;
      while i < n.value
        invariant 0 <= i && (i == 0 || i <= n.value)
        invariant ids == Listed(c, enc, i)
      {
        var v := Lookup(c, Key(enc, i));
        if v.Some? {
          ids := ids + {v.value};
        }
        i := i + 1;
      }
      if n.value < 0 {
        assert Listed(c, enc, n.value) == {} == Listed(c, enc, i);
      }
    }
  }

  /** `getGroupMembers(summary)`. */
  method GetGroupMembers(c: Content) returns (ids: set<int>)
    ensures ids == Decoded(c, Members)
  {
    ids := ReadEnumerated(c, Members);
  }

  /** `getDeclaredMemberships(summary)`. */
  method GetDeclaredMemberships(c: Content) returns (ids: set<int>)
    ensures ids == Decoded(c, Declarations)
  {
    ids := ReadEnumerated(c, Declarations);
  }

  /** `getAggregatedIds(summary)`. */
  method GetAggregatedIds(c: Content) returns (ids: set<int>)
    ensures ids == Decoded(c, Aggregations)
  {
    ids := ReadEnumerated(c, Aggregations);
  }

  /** `declaresGroupMembership(summary, gId)`. */
  method DeclaresGroupMembership(c: Content, gId: int) returns (b: bool)
    ensures b <==> gId in Decoded(c, Declarations)
  {
    var declared := GetDeclaredMemberships(c);
    b := gId in declared;
  }

  /** `isAggregated(summary, id)`. */
  method IsAggregated(c: Content, id: int) returns (b: bool)
    ensures b <==> id in Decoded(c, Aggregations)
  {
    var aggregated := GetAggregatedIds(c);
    b := id in aggregated;
  }

  lemma DisjointIffNoCommon(a: set<int>, b: set<int>)
    ensures a !! b <==> |b * a| == 0
  {
    if |b * a| != 0 {
      var x := Pick(b * a);
      assert x in a && x in b;
    } else {
      forall x | x in a ensures x !in b {
        assert x !in b * a;
      }
    }
  }

  /** `haveNoCommonAggregation(summary1, summary2)`: the aggregated sets are disjoint. */
  method HaveNoCommonAggregation(c: Content, d: Content) returns (b: bool)
    ensures b <==> Decoded(c, Aggregations) !! Decoded(d, Aggregations)
  {
    var ids1 := GetAggregatedIds(c);
    var ids2 := GetAggregatedIds(d);
    var common := ids2 * ids1;
    b := |common| == 0;
    DisjointIffNoCommon(ids1, ids2);
  }

  /** The entries that enumerate w from index 0: "Prefix<j>" = w[j]. */
  function Enumerated(enc: Encoding, w: seq<int>): map<string, int> {
    if w == [] then map[]
    else Enumerated(enc, w[..|w| - 1])[Key(enc, |w| - 1) := w[|w| - 1]]
  }

  /** Enumerating one more value stores it under the next index. */
  lemma EnumeratedSnoc(enc: Encoding, w: seq<int>, v: int)
    ensures Enumerated(enc, w + [v]) == Enumerated(enc, w)[Key(enc, |w|) := v]
  {
    assert (w + [v])[..|w|] == w;
  }

  /** Index j of w is stored under its own key. */
  lemma {:induction false} EnumeratedAt(enc: Encoding, w: seq<int>, j: int)
    requires 0 <= j < |w|
    ensures Key(enc, j) in Enumerated(enc, w)
    ensures Enumerated(enc, w)[Key(enc, j)] == w[j]
  {
    if j < |w| - 1 {
      if Key(enc, j) == Key(enc, |w| - 1) {
        PrefixedInjective(Prefix(enc), j, |w| - 1);
      }
      EnumeratedAt(enc, w[..|w| - 1], j);
    }
  }

  /** Every key of the enumeration is the key of an index of w. */
  lemma {:induction false} EnumeratedKeyIndex(enc: Encoding, w: seq<int>, k: string) returns (j: int)
    requires k in Enumerated(enc, w)
    ensures 0 <= j < |w| && k == Key(enc, j)
  {
    if k == Key(enc, |w| - 1) {
      j := |w| - 1;
    } else {
      j := EnumeratedKeyIndex(enc, w[..|w| - 1], k);
    }
  }

  /** A key of another encoding, or any count key, is never among the enumerated keys. */
  lemma EnumeratedKeysApart(enc: Encoding, w: seq<int>, other: Encoding, i: int)
    ensures CountKey(other) !in Enumerated(enc, w)
    ensures other != enc ==> Key(other, i) !in Enumerated(enc, w)
  {
    if CountKey(other) in Enumerated(enc, w) {
      var j := EnumeratedKeyIndex(enc, w, CountKey(other));
      KeysApart(enc, other, j, 0);
    }
    if other != enc && Key(other, i) in Enumerated(enc, w) {
      var j := EnumeratedKeyIndex(enc, w, Key(other, i));
      KeysApart(enc, other, j, i);
    }
  }

  /**
   * The round trip of the encoding: entries that enumerate w, followed by
   * the count |w|, decode to exactly the elements of w, whatever else the
   * summary held before.
   */
  lemma EnumeratedDecodes(e: map<string, int>, enc: Encoding, w: seq<int>)
    ensures Decoded(Entries((e + Enumerated(enc, w))[CountKey(enc) := |w|]), enc) == Elems(w)
  {
    var c := Entries((e + Enumerated(enc, w))[CountKey(enc) := |w|]);
    assert Count(c, enc) == |w|;
    forall j | 0 <= j < |w|
      ensures Lookup(c, Key(enc, j)) == Some(w[j])
    {
      KeysApart(enc, enc, j, 0);
      EnumeratedAt(enc, w, j);
    }
    ListedEnumeration(c, enc, w, |w|);
    assert w[..|w|] == w;
  }

  /** Contents that hold w[j] under index j list the first k elements of w below k. */
  lemma {:induction false} ListedEnumeration(c: Content, enc: Encoding, w: seq<int>, k: int)
    requires forall j :: 0 <= j < |w| ==> Lookup(c, Key(enc, j)) == Some(w[j])
    requires 0 <= k <= |w|
    ensures Listed(c, enc, k) == Elems(w[..k])
    decreases k
  {
    if k > 0 {
      ListedEnumeration(c, enc, w, k - 1);
      assert w[..k] == w[..k - 1] + [w[k - 1]];
    }
  }

  /** Enumerating and counting one encoding leaves the other two as they were. */
  lemma EnumeratedKeepsOthers(e: map<string, int>, enc: Encoding, w: seq<int>, other: Encoding)
    requires other != enc
    ensures SameEncoding(Entries(e), Entries((e + Enumerated(enc, w))[CountKey(enc) := |w|]), other)
  {
    var e' := (e + Enumerated(enc, w))[CountKey(enc) := |w|];
    KeysApart(enc, other, 0, 0);
    EnumeratedKeysApart(enc, w, other, 0);
    forall i ensures Lookup(Entries(e), Key(other, i)) == Lookup(Entries(e'), Key(other, i)) {
      KeysApart(other, enc, i, 0);
      EnumeratedKeysApart(enc, w, other, i);
    }
  }

  lemma MergeUpdate(a: map<string, int>, b: map<string, int>, k: string, v: int)
    ensures (a + b)[k := v] == a + b[k := v]
  {
  }

  lemma ElemsSnoc(w: seq<int>, v: int)
    ensures Elems(w + [v]) == Elems(w) + {v}
  {
  }

  /**
   * The loop shared by addDeclaredGroupMembership and
   * aggregateIntoGroupSummary: store the elements of a set, in the set's
   * iteration order, under indices 0, 1, ..., returning how many were
   * stored. `w` is that iteration order.
   */
  method PutEnumerated(s: HashMapContextSummary, enc: Encoding, values: set<int>)
    returns (count: nat, ghost w: seq<int>)
    modifies s
    ensures s.entries == old(s.entries) + Enumerated(enc, w)
    ensures Elems(w) == values && count == |w| == |values|
    ensures s.hashSeedHint == old(s.hashSeedHint)
  {
    count := 0;
    w := [];
    var remaining := values;
    while remaining != {}
      invariant remaining <= values
      invariant Elems(w) == values - remaining
      invariant count == |w| && |w| + |remaining| == |values|
      invariant s.entries == old(s.entries) + Enumerated(enc, w)
      invariant s.hashSeedHint == old(s.hashSeedHint)
      decreases |remaining|
    {
      ghost var _ := Pick(remaining);
      var v :| v in remaining;
      s.Put(Key(enc, count), v);
      EnumeratedSnoc(enc, w, v);
      MergeUpdate(old(s.entries), Enumerated(enc, w), Key(enc, count), v);
      ElemsSnoc(w, v);
      w := w + [v];
      count := count + 1;
      remaining := remaining - {v};
    }
  }

  /** The entries of a mutable summary, as the read side sees them. */
  function ContentOf(s: HashMapContextSummary): Content
    reads s
  {
    Entries(s.entries)
  }

  /** k is the count key or an element key of the encoding. */
  ghost predicate EncodingKey(enc: Encoding, k: string) {
    k == CountKey(enc) || exists i :: k == Key(enc, i)
  }

  /** k is a key of one of the encodings in encs. */
  ghost predicate GroupKey(encs: set<Encoding>, k: string) {
    exists enc :: enc in encs && EncodingKey(enc, k)
  }

  /**
   * Every entry whose key belongs to none of the encodings in encs (an
   * application entry such as a location, or another encoding) is kept.
   */
  ghost predicate KeepsOtherKeys(e0: map<string, int>, e1: map<string, int>, encs: set<Encoding>) {
    forall k :: !GroupKey(encs, k) ==> (k in e0 <==> k in e1) && (k in e0 ==> e0[k] == e1[k])
  }

  lemma PutKeepsOtherKeys(e: map<string, int>, k: string, v: int, encs: set<Encoding>)
    requires GroupKey(encs, k)
    ensures KeepsOtherKeys(e, e[k := v], encs)
  {
  }

  lemma RemoveKeepsOtherKeys(e: map<string, int>, k: string, encs: set<Encoding>)
    requires GroupKey(encs, k)
    ensures KeepsOtherKeys(e, e - {k}, encs)
  {
  }

  lemma KeepsOtherKeysTransitive(e0: map<string, int>, e1: map<string, int>, e2: map<string, int>,
                                 encs: set<Encoding>)
    requires KeepsOtherKeys(e0, e1, encs) && KeepsOtherKeys(e1, e2, encs)
    ensures KeepsOtherKeys(e0, e2, encs)
  {
  }

  /** Keeping everything outside some encodings keeps everything outside more of them. */
  lemma KeepsOtherKeysWiden(e0: map<string, int>, e1: map<string, int>, encs: set<Encoding>, encs': set<Encoding>)
    requires encs <= encs' && KeepsOtherKeys(e0, e1, encs)
    ensures KeepsOtherKeys(e0, e1, encs')
  {
    forall k | GroupKey(encs, k) ensures GroupKey(encs', k) {
      var enc :| enc in encs && EncodingKey(enc, k);
      assert enc in encs';
    }
  }

  /** The count key and the element keys of an encoding are its keys. */
  lemma KeyIsGroupKey(enc: Encoding, i: int, encs: set<Encoding>)
    requires enc in encs
    ensures GroupKey(encs, Key(enc, i)) && GroupKey(encs, CountKey(enc))
  {
    assert EncodingKey(enc, Key(enc, i)) && EncodingKey(enc, CountKey(enc));
  }

  /** Adding an enumeration of one encoding touches only that encoding's element keys. */
  lemma EnumeratedKeepsOtherKeys(e: map<string, int>, enc: Encoding, w: seq<int>)
    ensures KeepsOtherKeys(e, e + Enumerated(enc, w), {enc})
  {
    forall k | k in Enumerated(enc, w) ensures GroupKey({enc}, k) {
      var j := EnumeratedKeyIndex(enc, w, k);
      assert enc in {enc} && EncodingKey(enc, k);
    }
  }

  /**
   * `addDeclaredGroupMembership(summary, gId)`: the summary's declared
   * groups become the old ones plus gId, re-enumerated from index 0; the
   * member and aggregation sets are untouched.
   */
  method AddDeclaredGroupMembership(s: HashMapContextSummary, gId: int)
    modifies s
    ensures Decoded(ContentOf(s), Declarations) == old(Decoded(ContentOf(s), Declarations)) + {gId}
    ensures Count(ContentOf(s), Declarations) == |Decoded(ContentOf(s), Declarations)|
    ensures SameEncoding(old(ContentOf(s)), ContentOf(s), Members)
    ensures SameEncoding(old(ContentOf(s)), ContentOf(s), Aggregations)
    ensures KeepsOtherKeys(old(s.entries), s.entries, {Declarations})
    ensures s.hashSeedHint == old(s.hashSeedHint)
  {
    ghost var e0 := s.entries;
    var declared := GetDeclaredMemberships(ContentOf(s));
    declared := declared + {gId};
    var groupsEnumerated, w := PutEnumerated(s, Declarations, declared);
    ghost var e1 := s.entries;
    s.Put(CountKey(Declarations), groupsEnumerated);
    EnumeratedKeepsOtherKeys(e0, Declarations, w);
    KeyIsGroupKey(Declarations, 0, {Declarations});
    PutKeepsOtherKeys(e1, CountKey(Declarations), groupsEnumerated, {Declarations});
    KeepsOtherKeysTransitive(e0, e1, s.entries, {Declarations});
    EnumeratedDecodes(e0, Declarations, w);
    EnumeratedKeepsOthers(e0, Declarations, w, Members);
    EnumeratedKeepsOthers(e0, Declarations, w, Aggregations);
  }

  /**
   * `addGroupMember(groupSummary, id)`: id is stored under the index the
   * count names (0 when there is no count) and the count goes up by one.
   * With a non-negative count the member set gains exactly id.
   */
  method AddGroupMember(s: HashMapContextSummary, id: int)
    modifies s
    ensures Key(Members, old(Count(ContentOf(s), Members))) in s.entries
    ensures s.entries[Key(Members, old(Count(ContentOf(s), Members)))] == id
    ensures Count(ContentOf(s), Members) == old(Count(ContentOf(s), Members)) + 1
    ensures old(Count(ContentOf(s), Members)) >= 0 ==>
      Decoded(ContentOf(s), Members) == old(Decoded(ContentOf(s), Members)) + {id}
    ensures SameEncoding(old(ContentOf(s)), ContentOf(s), Declarations)
    ensures SameEncoding(old(ContentOf(s)), ContentOf(s), Aggregations)
    ensures KeepsOtherKeys(old(s.entries), s.entries, {Members})
    ensures s.hashSeedHint == old(s.hashSeedHint)
  {
    ghost var e0 := s.entries;
    var membersEnumerated: int;
    if CountKey(Members) in s.entries {
      membersEnumerated := s.entries[CountKey(Members)];
    } else {
      membersEnumerated := 0;
    }
    s.Put(Key(Members, membersEnumerated), id);
    ghost var e1 := s.entries;
    s.Put(CountKey(Members), membersEnumerated + 1);
    KeysApart(Members, Members, membersEnumerated, 0);
    assert Count(ContentOf(s), Members) == membersEnumerated + 1;
    if membersEnumerated >= 0 {
      var c0, c := Entries(e0), ContentOf(s);
      forall j | 0 <= j < membersEnumerated
        ensures Lookup(c, Key(Members, j)) == Lookup(c0, Key(Members, j))
      {
        KeysApart(Members, Members, j, 0);
        KeyInjective(Members);
      }
      assert Lookup(c, Key(Members, membersEnumerated)) == Some(id);
      ListedAgree(c, c0, Members, membersEnumerated);
      assert Listed(c, Members, membersEnumerated + 1) == Listed(c0, Members, membersEnumerated) + {id};
    }
    PutOutside(e0, Members, membersEnumerated, id, Declarations);
    PutOutside(e1, Members, membersEnumerated, membersEnumerated + 1, Declarations);
    PutOutside(e0, Members, membersEnumerated, id, Aggregations);
    PutOutside(e1, Members, membersEnumerated, membersEnumerated + 1, Aggregations);
    KeyIsGroupKey(Members, membersEnumerated, {Members});
    PutKeepsOtherKeys(e0, Key(Members, membersEnumerated), id, {Members});
    PutKeepsOtherKeys(e1, CountKey(Members), membersEnumerated + 1, {Members});
    KeepsOtherKeysTransitive(e0, e1, s.entries, {Members});
  }

  /** Two contents that agree on the element keys below n list the same values. */
  lemma {:induction false} ListedAgree(c: Content, d: Content, enc: Encoding, n: int)
    requires forall j :: 0 <= j < n ==> Lookup(c, Key(enc, j)) == Lookup(d, Key(enc, j))
    ensures Listed(c, enc, n) == Listed(d, enc, n)
    decreases n
  {
    if n > 0 {
      ListedAgree(c, d, enc, n - 1);
    }
  }

  /** Removing an element key at or beyond the count changes nothing the encoding reads. */
  lemma RemoveBeyondCount(e: map<string, int>, enc: Encoding, i: int)
    requires Count(Entries(e), enc) <= i
    ensures Count(Entries(e - {Key(enc, i)}), enc) == Count(Entries(e), enc)
    ensures Decoded(Entries(e - {Key(enc, i)}), enc) == Decoded(Entries(e), enc)
  {
    var c, d := Entries(e), Entries(e - {Key(enc, i)});
    KeysApart(enc, enc, i, 0);
    assert Count(c, enc) == Count(d, enc);
    forall j | 0 <= j < Count(c, enc) ensures Lookup(c, Key(enc, j)) == Lookup(d, Key(enc, j)) {
      if Key(enc, j) == Key(enc, i) {
        PrefixedInjective(Prefix(enc), j, i);
      }
    }
    ListedAgree(c, d, enc, Count(c, enc));
  }

  /**
   * `setGroupMembers(groupSummary, memberIds)`: the count is reset to 0,
   * every id is added with addGroupMember, and the element keys from the
   * new size up to the previous count are removed. The member set becomes
   * exactly memberIds, with no stale entries left below the old count.
   */
  method SetGroupMembers(s: HashMapContextSummary, memberIds: set<int>)
    modifies s
    ensures Decoded(ContentOf(s), Members) == memberIds
    ensures Count(ContentOf(s), Members) == |memberIds|
    ensures forall i :: |memberIds| <= i < old(Count(ContentOf(s), Members)) ==> Key(Members, i) !in s.entries
    ensures SameEncoding(old(ContentOf(s)), ContentOf(s), Declarations)
    ensures SameEncoding(old(ContentOf(s)), ContentOf(s), Aggregations)
    ensures KeepsOtherKeys(old(s.entries), s.entries, {Members})
    ensures s.hashSeedHint == old(s.hashSeedHint)
  {
    ghost var e0 := s.entries;
    var previousNumberOfMembers := s.Get(CountKey(Members));
    var newNumberOfMembers := |memberIds|;
    s.Put(CountKey(Members), 0);
    KeyIsGroupKey(Members, 0, {Members});
    PutKeepsOtherKeys(e0, CountKey(Members), 0, {Members});
    PutOutside(e0, Members, 0, 0, Declarations);
    PutOutside(e0, Members, 0, 0, Aggregations);
    assert Listed(ContentOf(s), Members, 0) == {};
    ghost var e1 := s.entries;
    AddGroupMembers(s, memberIds);
    SameEncodingTransitive(Entries(e0), Entries(e1), ContentOf(s), Declarations);
    SameEncodingTransitive(Entries(e0), Entries(e1), ContentOf(s), Aggregations);
    KeepsOtherKeysTransitive(e0, e1, s.entries, {Members});
    if previousNumberOfMembers.Some? {
      ghost var e2 := s.entries;
      RemoveMemberKeys(s, newNumberOfMembers, previousNumberOfMembers.value);
      SameEncodingTransitive(Entries(e0), Entries(e2), ContentOf(s), Declarations);
      SameEncodingTransitive(Entries(e0), Entries(e2), ContentOf(s), Aggregations);
      KeepsOtherKeysTransitive(e0, e2, s.entries, {Members});
    }
  }

  /**
   * addGroupMember for each id of a set, in the set's iteration order (the
   * loop of setGroupMembers).
   */
  method AddGroupMembers(s: HashMapContextSummary, ids: set<int>)
    modifies s
    ensures Count(ContentOf(s), Members) == old(Count(ContentOf(s), Members)) + |ids|
    ensures old(Count(ContentOf(s), Members)) >= 0 ==>
      Decoded(ContentOf(s), Members) == old(Decoded(ContentOf(s), Members)) + ids
    ensures SameEncoding(old(ContentOf(s)), ContentOf(s), Declarations)
    ensures SameEncoding(old(ContentOf(s)), ContentOf(s), Aggregations)
    ensures KeepsOtherKeys(old(s.entries), s.entries, {Members})
    ensures s.hashSeedHint == old(s.hashSeedHint)
  {
    ghost var c0 := ContentOf(s);
    ghost var n0 := Count(c0, Members);
    ghost var members0 := Decoded(c0, Members);
    ghost var added := members0;
    var remaining := ids;
    while remaining != {}
      invariant remaining <= ids
      invariant Count(ContentOf(s), Members) == n0 + |ids| - |remaining|
      invariant n0 >= 0 ==> Decoded(ContentOf(s), Members) == added
      invariant added == members0 + (ids - remaining)
      invariant SameEncoding(c0, ContentOf(s), Declarations)
      invariant SameEncoding(c0, ContentOf(s), Aggregations)
      invariant KeepsOtherKeys(old(s.entries), s.entries, {Members})
      invariant s.hashSeedHint == old(s.hashSeedHint)
      decreases |remaining|
    {
      ghost var _ := Pick(remaining);
      var id :| id in remaining;
      ghost var before := ContentOf(s);
      ghost var eb := s.entries;
      AddGroupMember(s, id);
      KeepsOtherKeysTransitive(old(s.entries), eb, s.entries, {Members});
      SameEncodingTransitive(c0, before, ContentOf(s), Declarations);
      SameEncodingTransitive(c0, before, ContentOf(s), Aggregations);
      AddedStep(members0, ids, remaining, id);
      added := added + {id};
      remaining := remaining - {id};
    }
  }

  /** The set algebra of one step of a loop that moves id from remaining to done. */
  lemma AddedStep(base: set<int>, ids: set<int>, remaining: set<int>, id: int)
    requires remaining <= ids && id in remaining
    ensures base + (ids - remaining) + {id} == base + (ids - (remaining - {id}))
  {
  }

  /** The removal loop of setGroupMembers: drop the member keys of indices from .. upTo-1. */
  method RemoveMemberKeys(s: HashMapContextSummary, from: int, upTo: int)
    requires Count(ContentOf(s), Members) <= from
    modifies s
    ensures Count(ContentOf(s), Members) == old(Count(ContentOf(s), Members))
    ensures Decoded(ContentOf(s), Members) == old(Decoded(ContentOf(s), Members))
    ensures forall j :: from <= j < upTo ==> Key(Members, j) !in s.entries
    ensures SameEncoding(old(ContentOf(s)), ContentOf(s), Declarations)
    ensures SameEncoding(old(ContentOf(s)), ContentOf(s), Aggregations)
    ensures KeepsOtherKeys(old(s.entries), s.entries, {Members})
    ensures s.hashSeedHint == old(s.hashSeedHint)
  {
    var i := from;
    while i < upTo
      invariant from <= i
      invariant Count(ContentOf(s), Members) == old(Count(ContentOf(s), Members))
      invariant Decoded(ContentOf(s), Members) == old(Decoded(ContentOf(s), Members))
      invariant forall j :: from <= j < i ==> Key(Members, j) !in s.entries
      invariant SameEncoding(old(ContentOf(s)), ContentOf(s), Declarations)
      invariant SameEncoding(old(ContentOf(s)), ContentOf(s), Aggregations)
      invariant KeepsOtherKeys(old(s.entries), s.entries, {Members})
      invariant s.hashSeedHint == old(s.hashSeedHint)
    {
      ghost var e := s.entries;
      KeyIsGroupKey(Members, i, {Members});
      RemoveKeepsOtherKeys(e, Key(Members, i), {Members});
      RemoveBeyondCount(e, Members, i);
      RemoveOutside(e, Members, i, Declarations);
      RemoveOutside(e, Members, i, Aggregations);
      s.Remove(Key(Members, i));
      KeepsOtherKeysTransitive(old(s.entries), e, s.entries, {Members});
      SameEncodingTransitive(old(ContentOf(s)), Entries(e), ContentOf(s), Declarations);
      SameEncodingTransitive(old(ContentOf(s)), Entries(e), ContentOf(s), Aggregations);
      i := i + 1;
    }
  }

  /**
   * `aggregateIntoGroupSummary(groupSummary, summary)`: the group summary's
   * members become the union of its own and the summary's, re-enumerated;
   * then likewise for the aggregated ids. Declarations are untouched.
   */
  method AggregateIntoGroupSummary(g: LabeledContextSummary, summary: Content)
    modifies g.hashMap
    ensures Decoded(ContentOf(g.hashMap), Members)
         == old(Decoded(ContentOf(g.hashMap), Members)) + Decoded(summary, Members)
    ensures Decoded(ContentOf(g.hashMap), Aggregations)
         == old(Decoded(ContentOf(g.hashMap), Aggregations)) + Decoded(summary, Aggregations)
    ensures Count(ContentOf(g.hashMap), Members) == |Decoded(ContentOf(g.hashMap), Members)|
    ensures Count(ContentOf(g.hashMap), Aggregations) == |Decoded(ContentOf(g.hashMap), Aggregations)|
    ensures SameEncoding(old(ContentOf(g.hashMap)), ContentOf(g.hashMap), Declarations)
    ensures KeepsOtherKeys(old(g.hashMap.entries), g.hashMap.entries, {Members, Aggregations})
    ensures g.hashMap.hashSeedHint == old(g.hashMap.hashSeedHint)
  {
    var s := g.hashMap;
    ghost var e0 := s.entries;
    var memberIds := GetGroupMembers(ContentOf(s));
    var summaryMembers := GetGroupMembers(summary);
    memberIds := memberIds + summaryMembers;
    var memberIdCount, w := PutEnumerated(s, Members, memberIds);
    ghost var eMid := s.entries;
    s.Put(CountKey(Members), memberIdCount);
    EnumeratedKeepsOtherKeys(e0, Members, w);
    KeyIsGroupKey(Members, 0, {Members});
    PutKeepsOtherKeys(eMid, CountKey(Members), memberIdCount, {Members});
    KeepsOtherKeysTransitive(e0, eMid, s.entries, {Members});
    EnumeratedDecodes(e0, Members, w);
    EnumeratedKeepsOthers(e0, Members, w, Declarations);
    EnumeratedKeepsOthers(e0, Members, w, Aggregations);
    SameEncodingDecodes(Entries(e0), ContentOf(s), Aggregations);

    ghost var e1 := s.entries;
    var aggregatedIds := GetAggregatedIds(ContentOf(s));
    var summaryAggregated := GetAggregatedIds(summary);
    aggregatedIds := aggregatedIds + summaryAggregated;
    var aggregatedIdCount, w2 := PutEnumerated(s, Aggregations, aggregatedIds);
    ghost var eMid2 := s.entries;
    s.Put(CountKey(Aggregations), aggregatedIdCount);
    EnumeratedKeepsOtherKeys(e1, Aggregations, w2);
    KeyIsGroupKey(Aggregations, 0, {Aggregations});
    PutKeepsOtherKeys(eMid2, CountKey(Aggregations), aggregatedIdCount, {Aggregations});
    KeepsOtherKeysTransitive(e1, eMid2, s.entries, {Aggregations});
    KeepsOtherKeysWiden(e0, e1, {Members}, {Members, Aggregations});
    KeepsOtherKeysWiden(e1, s.entries, {Aggregations}, {Members, Aggregations});
    KeepsOtherKeysTransitive(e0, e1, s.entries, {Members, Aggregations});
    EnumeratedDecodes(e1, Aggregations, w2);
    EnumeratedKeepsOthers(e1, Aggregations, w2, Declarations);
    EnumeratedKeepsOthers(e1, Aggregations, w2, Members);
    SameEncodingDecodes(Entries(e1), ContentOf(s), Members);
  }

  /** The part of a group summary that aggregation changes. */
  datatype Aggregate = Aggregate(members: set<int>, aggregated: set<int>)

  function AggregateOf(c: Content): Aggregate {
    Aggregate(Decoded(c, Members), Decoded(c, Aggregations))
  }

  /**
   * The test updateGroupAgg applies to each summary: it declares membership
   * in the group or is itself a summary of the group, its id is not yet
   * aggregated, and none of the ids it aggregates is.
   */
  predicate Qualifies(agg: Aggregate, gId: int, v: SummaryView) {
    && (gId in Decoded(v.content, Declarations) || v.id == gId)
    && v.id !in agg.aggregated
    && agg.aggregated !! Decoded(v.content, Aggregations)
  }

  /** One step of updateGroupAgg, on the aggregate alone. */
  function AggregateStep(agg: Aggregate, gId: int, v: SummaryView): Aggregate {
    if Qualifies(agg, gId, v) then
      Aggregate(agg.members + Decoded(v.content, Members), agg.aggregated + Decoded(v.content, Aggregations))
    else agg
  }

  /** updateGroupAgg as a fold over the summaries, in their order. */
  function AggregateAll(agg: Aggregate, gId: int, views: seq<SummaryView>): Aggregate
    decreases |views|
  {
    if views == [] then agg else AggregateAll(AggregateStep(agg, gId, views[0]), gId, views[1..])
  }

  /**
   * `updateGroupAgg(groupSummary, summaries)`: each qualifying summary, in
   * order, is aggregated into the group summary; its declarations are left
   * as they were.
   */
  method UpdateGroupAgg(g: LabeledContextSummary, summaries: seq<SummaryView>)
    modifies g.hashMap
    ensures AggregateOf(ContentOf(g.hashMap))
         == AggregateAll(old(AggregateOf(ContentOf(g.hashMap))), g.hashMap.id, summaries)
    ensures SameEncoding(old(ContentOf(g.hashMap)), ContentOf(g.hashMap), Declarations)
    ensures KeepsOtherKeys(old(g.hashMap.entries), g.hashMap.entries, {Members, Aggregations})
    ensures g.hashMap.hashSeedHint == old(g.hashMap.hashSeedHint)
  {
    var gId := g.hashMap.id;
    for i := 0 to |summaries|
      invariant AggregateAll(AggregateOf(ContentOf(g.hashMap)), gId, summaries[i..])
             == AggregateAll(old(AggregateOf(ContentOf(g.hashMap))), gId, summaries)
      invariant SameEncoding(old(ContentOf(g.hashMap)), ContentOf(g.hashMap), Declarations)
      invariant KeepsOtherKeys(old(g.hashMap.entries), g.hashMap.entries, {Members, Aggregations})
      invariant g.hashMap.hashSeedHint == old(g.hashMap.hashSeedHint)
    {
      var summary := summaries[i];
      ghost var eb := g.hashMap.entries;
      ghost var before := AggregateOf(ContentOf(g.hashMap));
      assert summaries[i..][1..] == summaries[i + 1..];
      var declares := DeclaresGroupMembership(summary.content, gId);
      var aggregated := IsAggregated(ContentOf(g.hashMap), summary.id);
      var disjoint := HaveNoCommonAggregation(ContentOf(g.hashMap), summary.content);
      if (declares || summary.id == gId) && !aggregated && disjoint {
        AggregateIntoGroupSummary(g, summary.content);
      }
      KeepsOtherKeysTransitive(old(g.hashMap.entries), eb, g.hashMap.entries, {Members, Aggregations});
      assert AggregateOf(ContentOf(g.hashMap)) == AggregateStep(before, gId, summary);
    }
  }

  /** Aggregation only ever adds members and aggregated ids. */
  lemma {:induction false} AggregateAllGrows(agg: Aggregate, gId: int, views: seq<SummaryView>)
    ensures agg.members <= AggregateAll(agg, gId, views).members
    ensures agg.aggregated <= AggregateAll(agg, gId, views).aggregated
    decreases |views|
  {
    if views != [] {
      AggregateAllGrows(AggregateStep(agg, gId, views[0]), gId, views[1..]);
    }
  }

  /** The members every summary in the sequence carries. */
  function MembersCarried(views: seq<SummaryView>): set<int>
    decreases |views|
  {
    if views == [] then {} else Decoded(views[0].content, Members) + MembersCarried(views[1..])
  }

  /** The aggregated ids every summary in the sequence carries. */
  function AggregatedCarried(views: seq<SummaryView>): set<int>
    decreases |views|
  {
    if views == [] then {} else Decoded(views[0].content, Aggregations) + AggregatedCarried(views[1..])
  }

  /** Aggregation adds nothing the summaries do not carry. */
  lemma {:induction false} AggregateAllWithin(agg: Aggregate, gId: int, views: seq<SummaryView>)
    ensures AggregateAll(agg, gId, views).members <= agg.members + MembersCarried(views)
    ensures AggregateAll(agg, gId, views).aggregated <= agg.aggregated + AggregatedCarried(views)
    decreases |views|
  {
    if views != [] {
      AggregateAllWithin(AggregateStep(agg, gId, views[0]), gId, views[1..]);
    }
  }

  /**
   * A summary that carries no members and no aggregated ids contributes
   * nothing, even when it declares membership in the group: the
   * aggregation never records the declaring summary's own id. Member ids
   * enter a group summary through the group definitions' handlers
   * (LabeledGroupDefinition.HandleContextSummary); aggregation only merges
   * the member and aggregated sets that summaries already carry.
   */
  lemma {:induction false} DeclarationsAloneAddNothing(agg: Aggregate, gId: int, views: seq<SummaryView>)
    requires MembersCarried(views) == {} && AggregatedCarried(views) == {}
    ensures AggregateAll(agg, gId, views) == agg
    decreases |views|
  {
    if views != [] {
      assert Decoded(views[0].content, Members) == {};
      assert Decoded(views[0].content, Aggregations) == {};
      assert AggregateStep(agg, gId, views[0]) == agg;
      DeclarationsAloneAddNothing(agg, gId, views[1..]);
    }
  }

  /**
   * Once a summary is aggregated its aggregated ids are recorded, so a
   * second summary that aggregates any of the same ids is skipped.
   */
  lemma OverlappingAggregationSkipped(agg: Aggregate, gId: int, v: SummaryView, u: SummaryView)
    requires Qualifies(agg, gId, v)
    requires Decoded(v.content, Aggregations) * Decoded(u.content, Aggregations) != {}
    ensures AggregateStep(AggregateStep(agg, gId, v), gId, u) == AggregateStep(agg, gId, v)
  {
    var x := Pick(Decoded(v.content, Aggregations) * Decoded(u.content, Aggregations));
    assert x in AggregateStep(agg, gId, v).aggregated;
  }
}
