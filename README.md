# Context-aware sockets: a verified model of the summary store, group encoding, serializers and datagram shim

The context-aware-sockets library lets nodes attach small "context summaries" to their UDP traffic. A summary is a string-to-int map that carries a node id. This project models, in Dafny, the parts of the library that hold its logic:

- **Received-summary store (`ContextHandler`)**, module `Handler`. A node keeps its local summaries and the newest Bloomier summary it has received for each other node.
  - An incoming batch is merged in order. A summary with a local id is skipped. So is one whose timestamp is not strictly newer than the stored one.
  - An accepted summary has its hop count bumped and is stored. Observers are told the set of accepted ids.
  - The outgoing set holds a Bloomier copy of each local summary, plus each received summary with fewer than `TAU = 3` hops.
  - The batch rule is the function `Merge`. The class method is proved equal to it, and lemmas about `Merge` state the rules.
- **Summary classes**, module `Summary`:
  - `HashMapContextSummary`, which holds an id, entries and a hash-seed hint;
  - `LabeledContextSummary`, which adds hops and a timestamp;
  - `BloomierContextSummary`, which holds a filter, an id, hops and a timestamp.

  The Bloomier table parameters m, k and q are chosen here. Java subclassing of `HashMapContextSummary` is modelled by composition: the subclass holds its map part in a `hashMap` field.
- **Group-membership encoding (`GroupUtils`)**, module `GroupUtils`. A set of ints is stored inside a summary's entries as a count key plus indexed keys:
  - `MembersEnumerated` with `Member0..`;
  - `GroupsEnumerated` with `Group0..`;
  - `IdsAggregated` with `Id0..`.

  Each reader is a loop proved equal to the decoding function `Decoded`. Each writer is proved to produce the intended set and to leave the other two encodings untouched. Group aggregation (`updateGroupAgg`) is specified as a fold, `AggregateAll`.
- **Group summaries and definitions**, module `Group`: `HashMapGroupContextSummary` and `LabeledGroupDefinition`.
- **Field serializers**:
  - module `Serializers` covers the labelled and Bloomier serializers;
  - module `Legacy` covers the older five-field Bloomier serializer and the older summary, which keeps its id as a map entry under a reserved key.

  Kryo primitives become typed field tokens (module `Fields`). Each writer is tied to a field list, and each reader to a decoding function with a round-trip lemma.
- **Datagram framing**:
  - module `Framing` holds the frame layout and the receive buffer;
  - module `Shim` holds the current `DatagramContextShim`;
  - module `LegacyShim` holds the older one.

  A datagram travels as `[4-byte big-endian payload length][payload][context bytes]`. The receive buffer starts at 2048 bytes and doubles on demand. Packets are arrays with an offset and a length, and the copy loops are modelled as loops over those arrays.

What the model takes as parameters:
- Bloomier filter construction: a `FilterBuilder`, where `None` stands for the construction timeout.
- Bloomier lookup: a `FilterLookup`, whose `None` is the library's null for a non-member.
- The clock: a `now` argument.
- The Kryo encoding of the node's summaries into context bytes: a `contextBytes` argument.
- Decoding and merging those bytes: a `processContext` predicate, where false is the swallowed exception.

## Where the code and the design description differ (the model follows the code)

- **Freshness.** A received summary replaces the stored one only if its timestamp is strictly newer. Hops are never compared, so there is no tie-break on equal timestamps.
- **Hop bumps.** Hops are bumped only for accepted summaries, not for every incoming one.
- **q.** q is `(int)(32 * 1.30) = 41`, not the ceiling 42.
- **Filter lookup may be null.** A filter lookup of a key that was not stored may answer null. Lookup is therefore a partial function (`Option`).
- **Missing operations.** There is no `setTau`, no reset and no removal of local summaries.
- **No `getBloomierCopy` on the newer `HashMapContextSummary`.** The newer class does not define `getBloomierCopy`, which `getSummariesToSend` calls. It is modelled as `Summary.BloomierCopy`: the map constructor of `BloomierContextSummary` with the summary's own hash-seed hint, failing when the build times out.
- **Null elements.** A missing indexed key reads as null, and Java adds that null to the decoded set. The model leaves it out of the set, because `Decoded` skips absent keys. Reading the writers, none of them leaves a key below the count absent; the model does not prove this as an invariant.

## Model

| member | source | states |
|---|---|---|
| Handler.ContextHandler.constructor | context-aware-sockets/src/edu/utexas/ece/mpc/context/ContextHandler.java:24-25 | both maps start empty |
| Handler.ContextHandler.AddLocalContextSummary | context-aware-sockets/src/edu/utexas/ece/mpc/context/ContextHandler.java:47-52 | the local map gains (or replaces) the entry for the summary's id; received summaries are untouched |
| Handler.ContextHandler.AddOrUpdateReceivedSummaries | context-aware-sockets/src/edu/utexas/ece/mpc/context/ContextHandler.java:54-86 | the loop over the batch leaves the received map equal to `Merge` of the batch in order; each batch summary's hops rise by exactly 1 iff it was accepted; the notification is absent iff nothing was accepted, otherwise it is exactly the accepted ids; local summaries are unchanged |
| Handler.MergeIgnoresLocal | context-aware-sockets/src/edu/utexas/ece/mpc/context/ContextHandler.java:61-65 | a summary whose id is local is never stored: a local id is in the store after the batch iff it was before, with the same summary |
| Handler.MergeNeverOlder | context-aware-sockets/src/edu/utexas/ece/mpc/context/ContextHandler.java:67-72 | a stored id stays stored, its timestamp never decreases, and a replacement always has a strictly newer timestamp (equal timestamps never replace; hops play no part) |
| Handler.MergeKeyed | context-aware-sockets/src/edu/utexas/ece/mpc/context/ContextHandler.java:74-76 | every stored summary stays filed under its own id, and each entry is either the old one or a summary of the batch |
| Handler.MergeCovers | context-aware-sockets/src/edu/utexas/ece/mpc/context/ContextHandler.java:58-80 | after the batch, every non-local batch summary's id is stored with a timestamp at least its own |
| Handler.MergeNotifiesChanged | context-aware-sockets/src/edu/utexas/ece/mpc/context/ContextHandler.java:79-85 | the ids notified are exactly the ids whose stored summary is new or replaced |
| Handler.MergeNothingAccepted | context-aware-sockets/src/edu/utexas/ece/mpc/context/ContextHandler.java:82-85 | a batch with no acceptable summary leaves the store unchanged and accepts nothing (no notification) |
| Handler.RedeliveryChangesNothing | context-aware-sockets/src/edu/utexas/ece/mpc/context/ContextHandler.java:67-76 | delivering the same batch twice: the second delivery accepts nothing and changes nothing |
| Handler.LaterStaleDuplicateSkipped | context-aware-sockets/src/edu/utexas/ece/mpc/context/ContextHandler.java:58-80 | order within a batch matters: a later summary for the same id that is not strictly newer than an earlier accepted one is skipped |
| Handler.ContextHandler.Get | context-aware-sockets/src/edu/utexas/ece/mpc/context/ContextHandler.java:88-97 | the local summary if there is one, else the received one, else none (both directions); a found summary carries the asked id |
| Handler.ContextHandler.GetValue | context-aware-sockets/src/edu/utexas/ece/mpc/context/ContextHandler.java:99-106 | none when no summary is known for the id; otherwise the local map's value, or the filter lookup of the received summary |
| Handler.ContextHandler.LocalCopies | context-aware-sockets/src/edu/utexas/ece/mpc/context/ContextHandler.java:113-120 | one fresh Bloomier copy of every local summary whose filter build succeeds, each with the request parameters, hops 0 and the current time, one per id, nothing else |
| Handler.ContextHandler.Forwarded | context-aware-sockets/src/edu/utexas/ece/mpc/context/ContextHandler.java:122-126 | exactly the received summaries with hops below TAU, each once |
| Handler.ContextHandler.GetSummariesToSend | context-aware-sockets/src/edu/utexas/ece/mpc/context/ContextHandler.java:108-136 | the copies of the local summaries, followed by exactly the received summaries with fewer than TAU hops |
| Handler.ContextHandler.GetReceivedSummaries | context-aware-sockets/src/edu/utexas/ece/mpc/context/ContextHandler.java:138-140 | every stored received summary appears exactly once and nothing else does |
| Summary.HashMapContextSummary.constructor | context-aware-sockets/src/edu/utexas/ece/mpc/context/summary/HashMapContextSummary.java:48-50 | the id is the given one; there are no entries and the hash-seed hint is 0 |
| Summary.HashMapContextSummary.Copy | context-aware-sockets/src/edu/utexas/ece/mpc/context/summary/HashMapContextSummary.java:52-57 | a new map with the same entries, id and hint; later puts on either are not seen by the other |
| Summary.HashMapContextSummary.Get | context-aware-sockets/src/edu/utexas/ece/mpc/context/summary/HashMapContextSummary.java:60-62 | a value iff the key is present (null otherwise), and then the stored value |
| Summary.HashMapContextSummary.Put | context-aware-sockets/src/edu/utexas/ece/mpc/context/summary/HashMapContextSummary.java:10 | the inherited `put`: the entry is set, the hint is kept |
| Summary.HashMapContextSummary.Remove | context-aware-sockets/src/edu/utexas/ece/mpc/context/util/GroupUtils.java:85 | the inherited `remove`: the key is gone, everything else is kept |
| Summary.HashMapContextSummary.SetHashSeedHint | context-aware-sockets/src/edu/utexas/ece/mpc/context/summary/HashMapContextSummary.java:73-75 | the hint becomes the given value; entries are kept |
| Summary.LabeledContextSummary.constructor | context-aware-sockets/src/edu/utexas/ece/mpc/context/summary/LabeledContextSummary.java:9-13 | a new map part with the source's id, entries and hint, plus the given hops and timestamp |
| Summary.LabeledContextSummary.Label | context-aware-sockets/src/edu/utexas/ece/mpc/context/summary/LabeledContextSummary.java:15-17 | as above with hops 0 and the current time |
| Summary.LabeledContextSummary.Copy | context-aware-sockets/src/edu/utexas/ece/mpc/context/summary/LabeledContextSummary.java:19-21 | id, entries, hint, hops and timestamp are all preserved, in a new map part |
| Summary.LabeledContextSummary.GetWireCopy | context-aware-sockets/src/edu/utexas/ece/mpc/context/summary/LabeledContextSummary.java:29-32 | an independent object with equal id, entries, hops and timestamp |
| Summary.LabeledContextSummary.IncrementHops | context-aware-sockets/src/edu/utexas/ece/mpc/context/summary/LabeledContextSummary.java:39-42 | hops go up by exactly one and the new value is returned; the timestamp is a constant |
| Summary.TableRows | context-aware-sockets/src/edu/utexas/ece/mpc/context/summary/BloomierContextSummary.java:24 | m = max(1, floor(1.2 n)): at least 1, at least n, and 5m <= 6n < 5(m+1) when n > 0 |
| Summary.HashCount | context-aware-sockets/src/edu/utexas/ece/mpc/context/summary/BloomierContextSummary.java:25 | k is 2 iff m < 40, otherwise 3 |
| Summary.RowBits | context-aware-sockets/src/edu/utexas/ece/mpc/context/summary/BloomierContextSummary.java:28 | q = floor(32 x 1.3) = 41 |
| Summary.BloomierContextSummary.constructor | context-aware-sockets/src/edu/utexas/ece/mpc/context/summary/BloomierContextSummary.java:12-20 | the filter holds the given m, k, q, seed and table; id, hops and timestamp are the given ones |
| Summary.BloomierContextSummary.FromMap | context-aware-sockets/src/edu/utexas/ece/mpc/context/summary/BloomierContextSummary.java:22-36 | the filter is built from the map's entries with the m, k, q above; the id is the map's id, hops 0, the timestamp the current time |
| Summary.BloomierContextSummary.Copy | context-aware-sockets/src/edu/utexas/ece/mpc/context/summary/BloomierContextSummary.java:38-44 | filter, id, hops and timestamp preserved |
| Summary.BloomierContextSummary.GetWireCopy | context-aware-sockets/src/edu/utexas/ece/mpc/context/summary/BloomierContextSummary.java:89-91 | a fresh object with the same filter, id, hops and timestamp |
| Summary.BloomierContextSummary.IncrementHops | context-aware-sockets/src/edu/utexas/ece/mpc/context/summary/BloomierContextSummary.java:99-101 | hops go up by exactly one and the new value is returned |
| Summary.BloomierCopy | context-aware-sockets/src/edu/utexas/ece/mpc/context/ContextHandler.java:113-120 | no copy iff the filter build times out; otherwise a fresh summary with the request's m, k, q, the built seed and table, the local id, hops 0 and the current time |
| GroupUtils.KeyInjective | context-aware-sockets/src/edu/utexas/ece/mpc/context/util/GroupUtils.java:13-19 | distinct indices give distinct element keys (prefix + decimal index) |
| GroupUtils.KeysApart | context-aware-sockets/src/edu/utexas/ece/mpc/context/util/GroupUtils.java:13-19 | keys of different encodings never coincide, and no element key is a count key |
| GroupUtils.ListedMember | context-aware-sockets/src/edu/utexas/ece/mpc/context/util/GroupUtils.java:62-72 | x is decoded below n iff some index below n holds x |
| GroupUtils.ReadEnumerated | context-aware-sockets/src/edu/utexas/ece/mpc/context/util/GroupUtils.java:62-72 | the counting loop returns exactly `Decoded` of the encoding (empty when the count is absent) |
| GroupUtils.GetGroupMembers | context-aware-sockets/src/edu/utexas/ece/mpc/context/util/GroupUtils.java:62-72 | the member set |
| GroupUtils.GetDeclaredMemberships | context-aware-sockets/src/edu/utexas/ece/mpc/context/util/GroupUtils.java:38-48 | the declared-group set |
| GroupUtils.GetAggregatedIds | context-aware-sockets/src/edu/utexas/ece/mpc/context/util/GroupUtils.java:104-114 | the aggregated-id set |
| GroupUtils.DeclaresGroupMembership | context-aware-sockets/src/edu/utexas/ece/mpc/context/util/GroupUtils.java:21-24 | true iff gId is in the declared set |
| GroupUtils.IsAggregated | context-aware-sockets/src/edu/utexas/ece/mpc/context/util/GroupUtils.java:91-94 | true iff the id is in the aggregated set |
| GroupUtils.DisjointIffNoCommon | context-aware-sockets/src/edu/utexas/ece/mpc/context/util/GroupUtils.java:96-102 | an empty retained intersection means the sets are disjoint, and conversely |
| GroupUtils.HaveNoCommonAggregation | context-aware-sockets/src/edu/utexas/ece/mpc/context/util/GroupUtils.java:96-102 | true iff the two aggregated sets are disjoint; neither summary is changed |
| GroupUtils.EnumeratedDecodes | context-aware-sockets/src/edu/utexas/ece/mpc/context/util/GroupUtils.java:121-126 | round trip: entries enumerating w from index 0, with the count |w|, decode to exactly the elements of w, whatever the summary held before |
| GroupUtils.PutEnumerated | context-aware-sockets/src/edu/utexas/ece/mpc/context/util/GroupUtils.java:31-34 | the loop writes the elements of a set under indices 0, 1, ... in some order w, with Elems(w) the set and the count its size |
| GroupUtils.AddDeclaredGroupMembership | context-aware-sockets/src/edu/utexas/ece/mpc/context/util/GroupUtils.java:26-36 | declared set becomes old set plus gId and the stored count equals its size; member and aggregation encodings untouched; every entry outside the declaration keys is kept |
| GroupUtils.AddGroupMember | context-aware-sockets/src/edu/utexas/ece/mpc/context/util/GroupUtils.java:50-60 | `Member<old count>` holds id and the count goes up by one; with a non-negative count the member set becomes old set plus id; other encodings untouched; every entry outside the member keys is kept |
| GroupUtils.RemoveBeyondCount | context-aware-sockets/src/edu/utexas/ece/mpc/context/util/GroupUtils.java:83-88 | removing an element key at or beyond the count changes neither the count nor the decoded set |
| GroupUtils.SetGroupMembers | context-aware-sockets/src/edu/utexas/ece/mpc/context/util/GroupUtils.java:74-89 | the member set becomes exactly the given set, the count its size, and member keys from the new size up to the old count are removed; every entry outside the member keys is kept |
| GroupUtils.AddGroupMembers | context-aware-sockets/src/edu/utexas/ece/mpc/context/util/GroupUtils.java:79-81 | the count rises by the number of ids; with a non-negative count the member set becomes old set plus ids; every entry outside the member keys is kept |
| GroupUtils.RemoveMemberKeys | context-aware-sockets/src/edu/utexas/ece/mpc/context/util/GroupUtils.java:83-88 | member keys of the given index range are removed; the member set and count are unchanged; every entry outside the member keys is kept |
| GroupUtils.AggregateIntoGroupSummary | context-aware-sockets/src/edu/utexas/ece/mpc/context/util/GroupUtils.java:116-138 | members become old plus the summary's members; aggregated ids become old plus the summary's; each stored count equals its set's size; declarations untouched; every entry outside the member and aggregation keys is kept |
| GroupUtils.UpdateGroupAgg | context-aware-sockets/src/edu/utexas/ece/mpc/context/util/GroupUtils.java:147-160 | the loop leaves the group's members and aggregated ids equal to the fold `AggregateAll` over the summaries in order, merging only summaries that pass `Qualifies`; declarations and every entry outside the member and aggregation keys are kept |
| GroupUtils.EnumeratedKeepsOtherKeys | context-aware-sockets/src/edu/utexas/ece/mpc/context/util/GroupUtils.java:31-34 | writing an enumeration touches only that encoding's element keys |
| GroupUtils.AggregateAllGrows | context-aware-sockets/src/edu/utexas/ece/mpc/context/util/GroupUtils.java:147-160 | members and aggregated ids never shrink |
| GroupUtils.AggregateAllWithin | context-aware-sockets/src/edu/utexas/ece/mpc/context/util/GroupUtils.java:147-160 | nothing is added that the summaries do not carry |
| GroupUtils.DeclarationsAloneAddNothing | context-aware-sockets/src/edu/utexas/ece/mpc/context/util/GroupUtils.java:149-157 | summaries that only declare membership add nothing: the declaring summary's own id is never recorded |
| GroupUtils.OverlappingAggregationSkipped | context-aware-sockets/src/edu/utexas/ece/mpc/context/util/GroupUtils.java:155-157 | after one summary is aggregated, a second one sharing an aggregated id with it is skipped |
| Group.HashMapGroupContextSummary.constructor | context-aware-sockets/src/edu/utexas/ece/mpc/context/summary/HashMapGroupContextSummary.java:11-13 | the id is gId, no entries, hint 0 |
| Group.HashMapGroupContextSummary.Copy | context-aware-sockets/src/edu/utexas/ece/mpc/context/summary/HashMapGroupContextSummary.java:15-17 | a new map part with the same id, entries and hint |
| Group.HashMapGroupContextSummary.GetGroupCopy | context-aware-sockets/src/edu/utexas/ece/mpc/context/summary/HashMapGroupContextSummary.java:19-22 | an independent copy with the same id and entries |
| Group.HashMapGroupContextSummary.GetMemberIds | context-aware-sockets/src/edu/utexas/ece/mpc/context/summary/HashMapGroupContextSummary.java:24-27 | the decoded member set |
| Group.HashMapGroupContextSummary.SetMemberIds | context-aware-sockets/src/edu/utexas/ece/mpc/context/summary/HashMapGroupContextSummary.java:29-32 | afterwards the member set is exactly the given set, the count its size; every entry outside the member keys is kept |
| Group.HashMapGroupContextSummary.AddMemberId | context-aware-sockets/src/edu/utexas/ece/mpc/context/summary/HashMapGroupContextSummary.java:34-37 | `Member<old count>` holds id, the count goes up by one and the member set gains the id; every entry outside the member keys is kept |
| Group.HashMapGroupContextSummary.AddMemberIds | context-aware-sockets/src/edu/utexas/ece/mpc/context/summary/HashMapGroupContextSummary.java:39-44 | addMemberId for each element in order: the count rises by the number of elements and the member set gains the distinct ones, so a repeated id counts twice but joins once; every entry outside the member keys is kept |
| Group.LabeledGroupDefinition.constructor | context-aware-sockets/src/edu/utexas/ece/mpc/context/group/LabeledGroupDefinition.java:14-21 | the definition's id is the given gId |
| Group.LabeledGroupDefinition.HandleContextSummary | context-aware-sockets/src/edu/utexas/ece/mpc/context/group/LabeledGroupDefinition.java:23-35 | the id is added iff the summary declares the current group summary's own id; when it does not, or the id is already a member, nothing changes; every entry outside the member keys is kept |
| Group.LabeledGroupDefinition.HandleGroupSummary | context-aware-sockets/src/edu/utexas/ece/mpc/context/group/LabeledGroupDefinition.java:37-47 | members become old plus the incoming group's members; when those are already members nothing changes; every entry outside the member keys is kept |
| Serializers.PairsRoundTrip | context-aware-sockets/src/edu/utexas/ece/mpc/context/serializer/LabeledContextSummarySerializer.java:37-61 | reading back the written key/value fields puts exactly those pairs, in order, and stops right after them |
| Serializers.LaterValueWins | context-aware-sockets/src/edu/utexas/ece/mpc/context/serializer/LabeledContextSummarySerializer.java:60 | when a key repeats on read, the last value written for it wins |
| Serializers.PutAllKeepsUnlisted | context-aware-sockets/src/edu/utexas/ece/mpc/context/serializer/LabeledContextSummarySerializer.java:56-61 | keys not in the pairs are neither added nor changed |
| Serializers.ListingRebuilds | context-aware-sockets/src/edu/utexas/ece/mpc/context/serializer/LabeledContextSummarySerializer.java:37-60 | putting a listing of a map into an empty map gives back that map |
| Serializers.LabeledRoundTrip | context-aware-sockets/src/edu/utexas/ece/mpc/context/serializer/LabeledContextSummarySerializer.java:33-63 | decoding what was written gives the same id, hops, timestamp and entries, and ends right after them |
| Serializers.CompleteListing | context-aware-sockets/src/edu/utexas/ece/mpc/context/serializer/LabeledContextSummarySerializer.java:37-41 | the pairs written so far are the start of a listing of every entry exactly once |
| Serializers.WriteWire | context-aware-sockets/src/edu/utexas/ece/mpc/context/serializer/LabeledContextSummarySerializer.java:29-41 | for a wire summary: succeeds iff the fields fit; the fields written are, on every path, the start of id, hops, timestamp, entry count and one key/value pair per entry (each entry listed exactly once) cut at the capacity, and all of them on success |
| Serializers.WriteSummary | context-aware-sockets/src/edu/utexas/ece/mpc/context/serializer/LabeledContextSummarySerializer.java:24-41 | for a map summary (a labelled one included): its id and entries are written with the unset labels of the one-argument wrapper, which never receives hops or timestamp; a prefix cut at the capacity on every path, succeeding iff the fields fit |
| Serializers.LabelsLost | context-aware-sockets/src/edu/utexas/ece/mpc/context/summary/HashMapWireContextSummary.java:8-11 | reading back what the map-summary branch wrote gives the id and entries but the unset labels, so a summary whose hops or timestamp are set does not survive the trip |
| Serializers.WriteLabeledCopy | context-aware-sockets/src/edu/utexas/ece/mpc/context/summary/LabeledContextSummary.java:29-32 | the labelled summary is written with its own hops and timestamp, as its wire copy carries them; a prefix cut at the capacity on every path, all of it on success |
| Serializers.ReadLabeled | context-aware-sockets/src/edu/utexas/ece/mpc/context/serializer/LabeledContextSummarySerializer.java:46-71 | the read loop gives exactly `DecodeLabeled`, or nothing when a field is missing, and advances past what it read |
| Serializers.BloomierRoundTrip | context-aware-sockets/src/edu/utexas/ece/mpc/context/serializer/BloomierContextSummarySerializer.java:44-70 | k, q, seed, table, id, hops and timestamp come back unchanged; m comes back as the number of table rows, so the summary is restored iff m equalled that |
| Serializers.WriteBloomier | context-aware-sockets/src/edu/utexas/ece/mpc/context/serializer/BloomierContextSummarySerializer.java:30-51 | succeeds iff the 7 fields fit; writes k, q, seed, table, id, hops, timestamp (no m) |
| Serializers.ReadBloomier | context-aware-sockets/src/edu/utexas/ece/mpc/context/serializer/BloomierContextSummarySerializer.java:54-77 | a fresh summary equal to `DecodeBloomier`, or nothing when a field is missing |
| Legacy.LegacyContextSummary.constructor | context-aware-sockets/src/edu/utexas/ece/mpc/context/HashMapContextSummary.java:58-62 | the id is stored as the single entry under "_context_identifier_id", so a new summary answers that id and has size 1 |
| Legacy.LegacyContextSummary.Get | context-aware-sockets/src/edu/utexas/ece/mpc/context/HashMapContextSummary.java:51-54 | a value iff the key is present, and then the stored value |
| Legacy.LegacyContextSummary.GetId | context-aware-sockets/src/edu/utexas/ece/mpc/context/HashMapContextSummary.java:55-57 | the value under the reserved key; none when it is absent (where Java throws) |
| Legacy.LegacyContextSummary.Put | context-aware-sockets/src/edu/utexas/ece/mpc/context/HashMapContextSummary.java:10 | the inherited `put`: the entry is set |
| Legacy.PutChangesId | context-aware-sockets/src/edu/utexas/ece/mpc/context/HashMapContextSummary.java:55-62 | putting the reserved key changes the id, and any other key leaves it alone |
| Legacy.LegacyRoundTrip | context-aware-sockets/src/edu/utexas/ece/mpc/context/BloomierContextSummarySerializer.java:37-58 | m, k, q, seed and table come back unchanged |
| Legacy.WriteLegacy | context-aware-sockets/src/edu/utexas/ece/mpc/context/BloomierContextSummarySerializer.java:25-45 | writes m, k, q, seed, table; succeeds iff the fields fit, and otherwise fails with a RuntimeException |
| Legacy.ReadLegacy | context-aware-sockets/src/edu/utexas/ece/mpc/context/BloomierContextSummarySerializer.java:48-60 | the filter `DecodeLegacy` gives, or nothing when a field is missing |
| Framing.EncodeInt32 | context-aware-sockets/src/edu/utexas/ece/mpc/context/shim/DatagramContextShim.java:20 | four bytes |
| Framing.DecodeInt32 | context-aware-sockets/src/edu/utexas/ece/mpc/context/shim/DatagramContextShim.java:41 | a value in the Java int range |
| Framing.Int32RoundTrip | context-aware-sockets/src/edu/utexas/ece/mpc/context/shim/DatagramContextShim.java:20-41 | decoding the four big-endian bytes gives back every Java int |
| Framing.Int32BytesRoundTrip | context-aware-sockets/src/edu/utexas/ece/mpc/context/shim/DatagramContextShim.java:20-41 | encoding the decoded value gives back every four bytes |
| Framing.Frame | context-aware-sockets/src/edu/utexas/ece/mpc/context/shim/DatagramContextShim.java:16-22 | the frame is 4 + payload length + context length bytes long |
| Framing.FrameRoundTrip | context-aware-sockets/src/edu/utexas/ece/mpc/context/shim/DatagramContextShim.java:16-43 | unframing a frame gives back its payload and its context |
| Framing.UnframeFrames | context-aware-sockets/src/edu/utexas/ece/mpc/context/shim/DatagramContextShim.java:38-43 | a region that unframes is exactly the frame of what it unframed to |
| Framing.Overwrite | context-aware-sockets/src/edu/utexas/ece/mpc/context/shim/DatagramContextShim.java:48-50 | the bytes at the offset become the source; every other byte is kept |
| Framing.CopyInto | context-aware-sockets/src/edu/utexas/ece/mpc/context/DatagramContextShim.java:35 | the array becomes the old one overwritten with the source at the offset |
| Framing.Packet.SetLength | context-aware-sockets/src/edu/utexas/ece/mpc/context/shim/DatagramContextShim.java:51 | accepted iff the new length fits the array after the offset; the length is then set |
| Framing.FramePacket | context-aware-sockets/src/edu/utexas/ece/mpc/context/shim/DatagramContextShim.java:9-25 | a fresh array holding exactly the frame of p's window and the context bytes |
| Framing.GrownSizeBounds | context-aware-sockets/src/edu/utexas/ece/mpc/context/shim/DatagramContextShim.java:27-35 | the grown size is the old size doubled some k times; it is at least the need and the old size; it is the old size or less than twice the need |
| Framing.ReceiveBuffer.constructor | context-aware-sockets/src/edu/utexas/ece/mpc/context/shim/DatagramContextShim.java:71-72 | a buffer of 2048 bytes |
| Framing.ReceiveBuffer.Increase | context-aware-sockets/src/edu/utexas/ece/mpc/context/shim/DatagramContextShim.java:64-67 | a fresh zeroed buffer of twice the length |
| Framing.ReceiveBuffer.GetReceivePacket | context-aware-sockets/src/edu/utexas/ece/mpc/context/shim/DatagramContextShim.java:27-35 | the doubling loop leaves the buffer at the grown size for p's length + 4 (the same buffer when it was already big enough); the packet is the whole buffer |
| Shim.DatagramContextShim.constructor | context-aware-sockets/src/edu/utexas/ece/mpc/context/shim/DatagramContextShim.java:71-72 | the receive buffer starts at 2048 bytes |
| Shim.DatagramContextShim.GetSendPacket | context-aware-sockets/src/edu/utexas/ece/mpc/context/shim/DatagramContextShim.java:9-25 | the sent buffer is the frame of p's window and the context bytes |
| Shim.DatagramContextShim.GetReceivePacket | context-aware-sockets/src/edu/utexas/ece/mpc/context/shim/DatagramContextShim.java:27-35 | as ReceiveBuffer.GetReceivePacket |
| Shim.DatagramContextShim.ProcessReceivedPacket | context-aware-sockets/src/edu/utexas/ece/mpc/context/shim/DatagramContextShim.java:37-62 | the received window is unframed (its errors escape and change nothing); the first min(p.length, payload length) payload bytes are copied to p's offset; p's length becomes the payload length unless that does not fit (IllegalArgument); the context starts at 4 + payload length, and a failure while processing it doubles the receive buffer |
| LegacyShim.LegacyUnframeWhenRoomy | context-aware-sockets/src/edu/utexas/ece/mpc/context/DatagramContextShim.java:32-38 | when p can hold the payload, the older shim reads payload and context as the current one does, with any stale buffer bytes appended to the context |
| LegacyShim.LegacyTruncationShiftsContext | context-aware-sockets/src/edu/utexas/ece/mpc/context/DatagramContextShim.java:33-38 | as written: with a payload longer than p, the context read is the payload's uncopied tail followed by the real context, never the real context |
| LegacyShim.LegacyContextCounterexample | context-aware-sockets/src/edu/utexas/ece/mpc/context/DatagramContextShim.java:33-38 | 10 payload bytes, context [7], p.length 5: the older shim hands on 6 context bytes where the current one hands on [7] |
| LegacyShim.LegacyDatagramContextShim.constructor | context-aware-sockets/src/edu/utexas/ece/mpc/context/DatagramContextShim.java:52-53 | the receive buffer starts at 2048 bytes |
| LegacyShim.LegacyDatagramContextShim.GetSendPacket | context-aware-sockets/src/edu/utexas/ece/mpc/context/DatagramContextShim.java:9-20 | the same frame as the current shim |
| LegacyShim.LegacyDatagramContextShim.GetReceivePacket | context-aware-sockets/src/edu/utexas/ece/mpc/context/DatagramContextShim.java:22-30 | the buffer grows by doubling until it holds p's length + 4 |
| LegacyShim.LegacyDatagramContextShim.ProcessReceivedPacket | context-aware-sockets/src/edu/utexas/ece/mpc/context/DatagramContextShim.java:32-43 | the whole receive buffer is parsed; min(payload length, p.length) bytes are copied into p, whose length is unchanged; the context begins after the copied bytes; a context failure doubles the buffer |

## Left out

- Sockets (`ContextShimmedDatagramSocket`, `ContextShimmedMulticastSocket`) and the socket address of the sent packet: these are network I/O.
- Both `ContextShim` classes. Kryo registration, `ObjectBuffer` and the count-then-records batch encoding are replaced by the `contextBytes` and `processContext` parameters. Kryo's byte-level encoding of each primitive is replaced by typed field tokens (module `Fields`).
- Fields.FieldWriter: the buffer capacity is counted in fields, not bytes. An overflow leaves a prefix of the fields written, in place of the bytes Kryo wrote before it threw.
- Bloomier filter construction and lookup: the filter library's source is not part of this model. Both are parameters, and so is the construction timeout.
- The older `BloomierContextSummary` (a subclass of the filter) is not part of this model, for the same reason.
- Floating point. m = (int)(n x 1.2) is modelled as 6n/5 rounded down. For every n below 2^31 the double product rounds to the exact value 6n/5 when that is an integer, and otherwise stays at least 0.2 from an integer, so truncation agrees. q is the constant 41.
- The no-argument `HashMapContextSummary` constructors: they hash a network interface's MAC address.
- `HashMapWireContextSummary`: as written it does not compile. It is modelled as `Serializers.WireSummary` (id, entries, hops, timestamp). Its one-argument constructor is `Serializers.Wrap`; the labels it never assigns are taken to hold Java's default value 0.
- The `ContextHandler` singleton, `synchronized`, logging, and the `Observable` machinery. The notification is the returned set of ids.
- Java int overflow: hop counters, `MembersEnumerated + 1` and the doubled buffer length are unbounded integers.
  - Framing.ReceiveBuffer.GetReceivePacket requires the grown size to stay within the Java int range, because Java would overflow there.
  - Shim.DatagramContextShim.GetReceivePacket carries the same requirement, because it delegates to the receive buffer.
  - LegacyShim.LegacyDatagramContextShim.GetReceivePacket carries the same requirement, for the same reason.
  - Shim.DatagramContextShim.GetSendPacket and LegacyShim.LegacyDatagramContextShim.GetSendPacket require the frame length to be a Java int.
- Handler.ContextHandler.GetSummariesToSend: the iteration order of the two hash maps is left unspecified. The result is stated as sets of copies and forwarded summaries.
- GroupUtils.AggregateIntoGroupSummary: aliasing is excluded. It takes the summary as a read-only content view, so aggregating a group summary into itself is not modelled.
- GroupUtils.AddGroupMember and the other member writers: the decoded set is stated for a non-negative stored count. With a negative count, Java's loops read nothing.
- Group membership of a `BloomierContextSummary` is read through the filter lookup parameter, so its decoded sets hold whatever that lookup answers.
- The older `HashMapContextSummary`: only the constructor with an id, `create`, `get`, `getId` and `put` are modelled.

## Findings

| source | as written | input that shows it | evidently intended | confidence | as-written member | corrected member |
|---|---|---|---|---|---|---|
| context-aware-sockets/src/edu/utexas/ece/mpc/context/DatagramContextShim.java:33-38 | the context is read from byte 4 + min(payloadLength, p.length) | a payload of ten zero bytes, context [7], p.length 5: the context handed on is five zero bytes then 7 | the context starts at 4 + payloadLength, as in the newer shim | not executed | LegacyShim.LegacyContextCounterexample | Framing.FrameRoundTrip |
| context-aware-sockets/src/edu/utexas/ece/mpc/context/serializer/LabeledContextSummarySerializer.java:26-35 | a map summary, a labelled one included, is wrapped by the one-argument `HashMapWireContextSummary` constructor, which never receives its hops and timestamp, so lines 34-35 write unset labels | a `LabeledContextSummary` with hops 2 and timestamp 100: the reader gets hops 0 and timestamp 0 | the summary's own hops and timestamp travel, as its wire copy keeps them and the reader hands them on to the three-argument constructor (line 63) | not executed | Serializers.LabelsLost | Serializers.WriteLabeledCopy |
