/**
 * The two wire serializers of summaries: the labelled form (id, hops,
 * timestamp, then the map's entries) and the Bloomier form (the filter's
 * parameters and table, then the header). Each writes a fixed field order
 * and reads the same order back.
 */
module Serializers {
  import opened Common
  import opened Summary
  import opened Fields

  /** A labelled summary as it travels: id, entries, hop count and timestamp. */
  datatype WireSummary = WireSummary(id: int, entries: map<string, int>, hops: int, timestamp: int)

  /** The map's entries in the order a key iteration visited them. */
  type Pairs = seq<(string, int)>

  /** pairs lists every entry of the map exactly once, with its value. */
  ghost predicate Lists(pairs: Pairs, entries: map<string, int>) {
    && |pairs| == |entries|
    && (forall i :: 0 <= i < |pairs| ==> pairs[i].0 in entries && entries[pairs[i].0] == pairs[i].1)
    && (forall k :: k in entries ==> exists i :: 0 <= i < |pairs| && pairs[i].0 == k)
    && (forall i, j :: 0 <= i < j < |pairs| ==> pairs[i].0 != pairs[j].0)
  }

  /** A key field and a value field per pair. */
  function PairFields(pairs: Pairs): (fs: seq<Field>)
    ensures |fs| == 2 * |pairs|
  {
    if pairs == [] then []
    else [StringField(pairs[0].0), IntField(pairs[0].1)] + PairFields(pairs[1..])
  }

  /** What the labelled writer emits: id, hops, timestamp, entry count, then the pairs. */
  function LabeledFields(w: WireSummary, pairs: Pairs): seq<Field> {
    [IntField(w.id), IntField(w.hops), LongField(w.timestamp), IntField(|w.entries|)] + PairFields(pairs)
  }

  /** `put` of every pair in order into acc. */
  function PutAll(acc: map<string, int>, pairs: Pairs): map<string, int>
    decreases |pairs|
  {
    if pairs == [] then acc else PutAll(acc[pairs[0].0 := pairs[0].1], pairs[1..])
  }

  /** The reader's loop: n (key, value) pairs put into acc, and the position after them. */
  function DecodePairs(fs: seq<Field>, pos: nat, n: int, acc: map<string, int>): Option<(map<string, int>, nat)>
    decreases if n > 0 then n else 0
  {
    if n <= 0 then Some((acc, pos))
    else match (StringAt(fs, pos), IntAt(fs, pos + 1))
      case (Some(key), Some(value)) => DecodePairs(fs, pos + 2, n - 1, acc[key := value])
      case _ => None
  }

  /**
   * What the labelled reader decodes from position pos: the summary and
   * the position after it, or `None` when a field is missing.
   */
  function DecodeLabeled(fs: seq<Field>, pos: nat): Option<(WireSummary, nat)> {
    match (IntAt(fs, pos), IntAt(fs, pos + 1), LongAt(fs, pos + 2), IntAt(fs, pos + 3))
    case (Some(id), Some(hops), Some(timestamp), Some(size)) =>
      (match DecodePairs(fs, pos + 4, size, map[])
       case None => None
       case Some((entries, end)) => Some((WireSummary(id, entries, hops, timestamp), end)))
    case _ => None
  }

  /** Reading back the fields of pairs puts exactly those pairs, in order. */
  lemma {:induction false} PairsRoundTrip(prefix: seq<Field>, pairs: Pairs, rest: seq<Field>, acc: map<string, int>)
    ensures DecodePairs(prefix + PairFields(pairs) + rest, |prefix|, |pairs|, acc)
         == Some((PutAll(acc, pairs), |prefix| + 2 * |pairs|))
    decreases |pairs|
  {
    if pairs != [] {
      var fs := prefix + PairFields(pairs) + rest;
      var head := [StringField(pairs[0].0), IntField(pairs[0].1)];
      var prefix' := prefix + head;
      assert fs == prefix' + PairFields(pairs[1..]) + rest;
      assert fs[|prefix|] == StringField(pairs[0].0) && fs[|prefix| + 1] == IntField(pairs[0].1);
      PairsRoundTrip(prefix', pairs[1..], rest, acc[pairs[0].0 := pairs[0].1]);
    }
  }

  /** A later pair for the same key wins: the map holds the last value put. */
  lemma {:induction false} LaterValueWins(acc: map<string, int>, pairs: Pairs, i: int)
    requires 0 <= i < |pairs|
    requires forall j :: i < j < |pairs| ==> pairs[j].0 != pairs[i].0
    ensures pairs[i].0 in PutAll(acc, pairs) && PutAll(acc, pairs)[pairs[i].0] == pairs[i].1
    decreases |pairs|
  {
    if i == 0 {
      PutAllKeepsUnlisted(acc[pairs[0].0 := pairs[0].1], pairs[1..], pairs[0].0);
    } else {
      LaterValueWins(acc[pairs[0].0 := pairs[0].1], pairs[1..], i - 1);
    }
  }

  /** A key no pair mentions keeps its value from acc. */
  lemma {:induction false} PutAllKeepsUnlisted(acc: map<string, int>, pairs: Pairs, key: string)
    requires forall j :: 0 <= j < |pairs| ==> pairs[j].0 != key
    ensures key in PutAll(acc, pairs) <==> key in acc
    ensures key in acc ==> PutAll(acc, pairs)[key] == acc[key]
    decreases |pairs|
  {
    if pairs != [] {
      PutAllKeepsUnlisted(acc[pairs[0].0 := pairs[0].1], pairs[1..], key);
    }
  }

  /** Putting a listing of a map into an empty map rebuilds that map. */
  lemma ListingRebuilds(pairs: Pairs, entries: map<string, int>)
    requires Lists(pairs, entries)
    ensures PutAll(map[], pairs) == entries
  {
    var r := PutAll(map[], pairs);
    forall key | key in entries ensures key in r && r[key] == entries[key] {
      var i :| 0 <= i < |pairs| && pairs[i].0 == key;
      LaterValueWins(map[], pairs, i);
    }
    forall key | key in r ensures key in entries {
      if forall j :: 0 <= j < |pairs| ==> pairs[j].0 != key {
        PutAllKeepsUnlisted(map[], pairs, key);
      }
    }
  }

  /**
   * Round trip of the labelled serializer: whatever order the keys were
   * visited in, reading back what was written yields the same id, hops,
   * timestamp and entries, and stops right after them.
   */
  lemma LabeledRoundTrip(prefix: seq<Field>, w: WireSummary, pairs: Pairs, rest: seq<Field>)
    requires Lists(pairs, w.entries)
    ensures DecodeLabeled(prefix + LabeledFields(w, pairs) + rest, |prefix|)
         == Some((w, |prefix| + |LabeledFields(w, pairs)|))
  {
    var fs := prefix + LabeledFields(w, pairs) + rest;
    var header := [IntField(w.id), IntField(w.hops), LongField(w.timestamp), IntField(|w.entries|)];
    assert fs == (prefix + header) + PairFields(pairs) + rest;
    assert fs[|prefix|] == IntField(w.id) && fs[|prefix| + 1] == IntField(w.hops);
    assert fs[|prefix| + 2] == LongField(w.timestamp) && fs[|prefix| + 3] == IntField(|w.entries|);
    PairsRoundTrip(prefix + header, pairs, rest, map[]);
    ListingRebuilds(pairs, w.entries);
  }

  /**
   * pairs lists, in visiting order, the entries already visited: those
   * outside remaining, each once and with its value.
   */
  ghost predicate Partial(pairs: Pairs, entries: map<string, int>, remaining: set<string>) {
    && remaining <= entries.Keys
    && |pairs| + |remaining| == |entries|
    && (forall i :: 0 <= i < |pairs| ==>
          pairs[i].0 in entries && pairs[i].0 !in remaining && entries[pairs[i].0] == pairs[i].1)
    && (forall k :: k in entries && k !in remaining ==> exists i :: 0 <= i < |pairs| && pairs[i].0 == k)
    && (forall i, j :: 0 <= i < j < |pairs| ==> pairs[i].0 != pairs[j].0)
  }

  /** Visiting one more remaining key extends a partial listing. */
  lemma VisitNext(pairs: Pairs, entries: map<string, int>, remaining: set<string>, key: string)
    requires Partial(pairs, entries, remaining) && key in remaining
    ensures Partial(pairs + [(key, entries[key])], entries, remaining - {key})
  {
    var next := pairs + [(key, entries[key])];
    assert forall i :: 0 <= i < |pairs| ==> next[i] == pairs[i];
    assert next[|pairs|].0 == key;
  }

  /** Every partial listing is the start of a full listing of the map. */
  lemma {:induction false} CompleteListing(pairs: Pairs, entries: map<string, int>, remaining: set<string>)
    returns (full: Pairs)
    requires Partial(pairs, entries, remaining)
    ensures Lists(full, entries) && pairs <= full
    decreases |remaining|
  {
    if remaining == {} {
      full := pairs;
    } else {
      ghost var _ := Pick(remaining);
      var key :| key in remaining;
      VisitNext(pairs, entries, remaining, key);
      full := CompleteListing(pairs + [(key, entries[key])], entries, remaining - {key});
    }
  }

  /**
   * A write that overflows after mid leaves the same fields as writing
   * mid, then fs, then anything at all, from before.
   */
  lemma OverflowPrefix(before: seq<Field>, mid: seq<Field>, fs: seq<Field>, tail: seq<Field>, capacity: nat)
    requires |before| + |mid| <= capacity < |before| + |mid| + |fs|
    ensures AfterWrite(before + mid, fs, capacity) == AfterWrite(before, mid + fs + tail, capacity)
  {
    var n := capacity - |before| - |mid|;
    assert (mid + fs + tail)[..|mid| + n] == mid + fs[..n];
  }

  /** The header overflowing leaves a prefix of the whole labelled form. */
  lemma HeaderOverflow(start: seq<Field>, w: WireSummary, pairs: Pairs, capacity: nat)
    requires |start| <= capacity < |start| + 4
    ensures AfterWrite(start, [IntField(w.id), IntField(w.hops), LongField(w.timestamp), IntField(|w.entries|)], capacity)
         == AfterWrite(start, LabeledFields(w, pairs), capacity)
  {
    var header := [IntField(w.id), IntField(w.hops), LongField(w.timestamp), IntField(|w.entries|)];
    OverflowPrefix(start, [], header, PairFields(pairs), capacity);
    assert [] + header + PairFields(pairs) == LabeledFields(w, pairs);
  }

  /**
   * A pair overflowing after the fields of pairs leaves a prefix of the
   * labelled form of any listing that continues with that pair.
   */
  lemma PairOverflow(start: seq<Field>, w: WireSummary, pairs: Pairs, p: (string, int), full: Pairs, capacity: nat)
    requires |start| + |LabeledFields(w, pairs)| <= capacity < |start| + |LabeledFields(w, pairs)| + 2
    requires pairs + [p] <= full
    ensures AfterWrite(start + LabeledFields(w, pairs), [StringField(p.0), IntField(p.1)], capacity)
         == AfterWrite(start, LabeledFields(w, full), capacity)
  {
    var next := pairs + [p];
    var rest := full[|next|..];
    assert full == next + rest;
    PairFieldsAppend(next, rest);
    PairFieldsSnoc(pairs, p);
    OverflowPrefix(start, LabeledFields(w, pairs), [StringField(p.0), IntField(p.1)], PairFields(rest), capacity);
    assert LabeledFields(w, pairs) + [StringField(p.0), IntField(p.1)] + PairFields(rest) == LabeledFields(w, full);
  }

  /**
   * The field-writing half of `writeObjectData` of the labelled serializer,
   * on the wire summary it holds (the branch that receives a wire summary):
   * id, hops, timestamp and entry count, then each entry's key and value in
   * key-iteration order (the order chosen is returned as `pairs`). It fails
   * with a buffer overflow exactly when the fields do not fit, and then the
   * fields that did fit are written.
   */
  method WriteWire(out: FieldWriter, w: WireSummary)
    returns (result: Outcome<WriteError>, ghost pairs: Pairs)
    requires out.Valid()
    modifies out
    ensures out.Valid()
    ensures result.Pass? <==> |old(out.written)| + 4 + 2 * |w.entries| <= out.capacity
    ensures result.Fail? ==> result.error == BufferOverflow
    ensures Lists(pairs, w.entries)
    ensures out.written == AfterWrite(old(out.written), LabeledFields(w, pairs), out.capacity)
    ensures result.Pass? ==> out.written == old(out.written) + LabeledFields(w, pairs)
  {
    var entries := w.entries;
    ghost var start := out.written;
    pairs := [];
    var header := [IntField(w.id), IntField(w.hops), LongField(w.timestamp), IntField(|entries|)];
    var ok := out.Write(header);
    if !ok {
      pairs := CompleteListing([], entries, entries.Keys);
      HeaderOverflow(start, w, pairs, out.capacity);
      return Fail(BufferOverflow), pairs;
    }
    var remaining := entries.Keys;
    while remaining != {}
      invariant out.Valid()
      invariant out.written == start + LabeledFields(w, pairs)
      invariant Partial(pairs, entries, remaining)
      decreases |remaining|
    {
      ghost var _ := Pick(remaining);
      var key :| key in remaining;
      VisitNext(pairs, entries, remaining, key);
      ghost var next := pairs + [(key, entries[key])];
      var step := [StringField(key), IntField(entries[key])];
      assert PairFields(next) == PairFields(pairs) + step by {
        PairFieldsSnoc(pairs, (key, entries[key]));
      }
      ok := out.Write(step);
      if !ok {
        ghost var full := CompleteListing(next, entries, remaining - {key});
        PairOverflow(start, w, pairs, (key, entries[key]), full, out.capacity);
        return Fail(BufferOverflow), full;
      }
      pairs := next;
      remaining := remaining - {key};
    }
    result := Pass;
  }

  /**
   * The labels of a wire summary made by the one-argument constructor
   * `HashMapWireContextSummary(summary)`: it assigns neither hops nor
   * timestamp, so both keep Java's default value.
   */
  const UnsetHops: int := 0
  const UnsetTimestamp: int := 0

  /** `new HashMapWireContextSummary(summary)`: the summary's id and entries, unset labels. */
  function Wrap(id: int, entries: map<string, int>): WireSummary {
    WireSummary(id, entries, UnsetHops, UnsetTimestamp)
  }

  /**
   * `writeObjectData` of the labelled serializer on a map summary (the
   * `instanceof HashMapContextSummary` branch, which a LabeledContextSummary
   * also takes): the summary is wrapped by the one-argument constructor and
   * the wrapper is written, so the header carries the wrapper's unset
   * labels, not the summary's own.
   */
  method WriteSummary(out: FieldWriter, s: HashMapContextSummary)
    returns (result: Outcome<WriteError>, ghost pairs: Pairs)
    requires out.Valid()
    modifies out
    ensures out.Valid()
    ensures result.Pass? <==> |old(out.written)| + 4 + 2 * |s.entries| <= out.capacity
    ensures result.Fail? ==> result.error == BufferOverflow
    ensures Lists(pairs, s.entries)
    ensures out.written == AfterWrite(old(out.written), LabeledFields(Wrap(s.id, s.entries), pairs), out.capacity)
  {
    result, pairs := WriteWire(out, Wrap(s.id, s.entries));
  }

  /**
   * What a reader gets back from the map-summary branch: the id and the
   * entries, but always the unset labels, so a labelled summary whose hops
   * or timestamp are set does not survive the trip.
   */
  lemma LabelsLost(id: int, entries: map<string, int>, pairs: Pairs, hops: int, timestamp: int)
    requires Lists(pairs, entries)
    requires hops != UnsetHops || timestamp != UnsetTimestamp
    ensures var d := DecodeLabeled(LabeledFields(Wrap(id, entries), pairs), 0);
      && d.Some?
      && d.value.0.id == id && d.value.0.entries == entries
      && d.value.0.hops == UnsetHops && d.value.0.timestamp == UnsetTimestamp
      && d.value.0 != WireSummary(id, entries, hops, timestamp)
  {
    var fs := LabeledFields(Wrap(id, entries), pairs);
    assert [] + fs + [] == fs;
    LabeledRoundTrip([], Wrap(id, entries), pairs, []);
  }

  /**
   * The labelled summary written with its own hops and timestamp, as its
   * wire copy (`getWireCopy`, which keeps both) carries them; with
   * LabeledRoundTrip the reader gets back all four parts.
   */
  method WriteLabeledCopy(out: FieldWriter, s: LabeledContextSummary)
    returns (result: Outcome<WriteError>, ghost pairs: Pairs)
    requires out.Valid()
    modifies out
    ensures out.Valid()
    ensures result.Pass? <==> |old(out.written)| + 4 + 2 * |s.hashMap.entries| <= out.capacity
    ensures result.Fail? ==> result.error == BufferOverflow
    ensures Lists(pairs, s.hashMap.entries)
    ensures out.written == AfterWrite(old(out.written),
      LabeledFields(WireSummary(s.hashMap.id, s.hashMap.entries, s.hops, s.timestamp), pairs), out.capacity)
    ensures result.Pass? ==>
      out.written == old(out.written) + LabeledFields(WireSummary(s.hashMap.id, s.hashMap.entries, s.hops, s.timestamp), pairs)
  {
    result, pairs := WriteWire(out, WireSummary(s.hashMap.id, s.hashMap.entries, s.hops, s.timestamp));
  }

  lemma {:induction false} PairFieldsAppend(a: Pairs, b: Pairs)
    ensures PairFields(a + b) == PairFields(a) + PairFields(b)
    decreases |a|
  {
    if a == [] {
      assert a + b == b;
    } else {
      assert (a + b)[0] == a[0] && (a + b)[1..] == a[1..] + b;
      PairFieldsAppend(a[1..], b);
    }
  }

  lemma {:induction false} PairFieldsSnoc(pairs: Pairs, p: (string, int))
    ensures PairFields(pairs + [p]) == PairFields(pairs) + [StringField(p.0), IntField(p.1)]
    decreases |pairs|
  {
    if pairs != [] {
      assert (pairs + [p])[1..] == pairs[1..] + [p];
      PairFieldsSnoc(pairs[1..], p);
    }
  }

  /**
   * `readObjectData` of the labelled serializer: the header fields, then
   * `size` pairs put into a new summary carrying the decoded id. A missing
   * field makes the read fail.
   */
  method ReadLabeled(r: FieldReader) returns (result: Option<WireSummary>)
    modifies r
    ensures var d := DecodeLabeled(r.fields, old(r.position));
      && (d.None? <==> result.None?)
      && (d.Some? ==> result == Some(d.value.0) && r.position == d.value.1)
  {
    ghost var pos := r.position;
    var id := r.ReadInt();
    if id.None? { return None; }
    var hops := r.ReadInt();
    if hops.None? { return None; }
    var timestamp := r.ReadLong();
    if timestamp.None? { return None; }
    var summary := new HashMapContextSummary(id.value);
    var size := r.ReadInt();
    if size.None? { return None; }
    assert r.position == pos + 4;
    for i := 0 to if size.value > 0 then size.value else 0
      invariant DecodePairs(r.fields, r.position, size.value - i, summary.entries)
             == DecodePairs(r.fields, pos + 4, size.value, map[])
    {
      var key := r.ReadString();
      if key.None? { return None; }
      var value := r.ReadInt();
      if value.None? { return None; }
      summary.Put(key.value, value.value);
    }
    result := Some(WireSummary(summary.id, summary.entries, hops.value, timestamp.value));
  }

  /** A Bloomier summary as the reader rebuilds it: filter, id, hops and timestamp. */
  datatype BloomierWire = BloomierWire(filter: BloomierFilter, id: int, hops: int, timestamp: int)

  /** What the Bloomier writer emits: k, q, hash seed, table, id, hops, timestamp (m is not written). */
  function BloomierFields(b: BloomierWire): seq<Field> {
    [IntField(b.filter.k), IntField(b.filter.q), LongField(b.filter.hashSeed), TableField(b.filter.table),
     IntField(b.id), IntField(b.hops), LongField(b.timestamp)]
  }

  /** What the Bloomier reader decodes: m is taken to be the number of table rows. */
  function DecodeBloomier(fs: seq<Field>, pos: nat): Option<(BloomierWire, nat)> {
    match (IntAt(fs, pos), IntAt(fs, pos + 1), LongAt(fs, pos + 2), TableAt(fs, pos + 3),
           IntAt(fs, pos + 4), IntAt(fs, pos + 5), LongAt(fs, pos + 6))
    case (Some(k), Some(q), Some(seed), Some(table), Some(id), Some(hops), Some(timestamp)) =>
      Some((BloomierWire(BloomierFilter(|table|, k, q, seed, table), id, hops, timestamp), pos + 7))
    case _ => None
  }

  /**
   * Round trip of the Bloomier serializer: k, q, seed, table, id, hops and
   * timestamp come back unchanged; m comes back as the number of table
   * rows, so it is preserved exactly when it equalled that number.
   */
  lemma BloomierRoundTrip(prefix: seq<Field>, b: BloomierWire, rest: seq<Field>)
    ensures var d := DecodeBloomier(prefix + BloomierFields(b) + rest, |prefix|);
      && d.Some?
      && d.value.0 == b.(filter := b.filter.(m := |b.filter.table|))
      && d.value.1 == |prefix| + 7
      && (d.value.0 == b <==> b.filter.m == |b.filter.table|)
  {
    var fs := prefix + BloomierFields(b) + rest;
    forall j | 0 <= j < 7 ensures fs[|prefix| + j] == BloomierFields(b)[j] {
    }
  }

  /** The header of a Bloomier summary object. */
  function WireOf(s: BloomierContextSummary): BloomierWire
    reads s
  {
    BloomierWire(s.filter, s.id, s.hops, s.timestamp)
  }

  /** `writeObjectData` of the Bloomier serializer. */
  method WriteBloomier(out: FieldWriter, s: BloomierContextSummary) returns (result: Outcome<WriteError>)
    requires out.Valid()
    modifies out
    ensures out.Valid()
    ensures result.Pass? <==> |old(out.written)| + 7 <= out.capacity
    ensures result.Fail? ==> result.error == BufferOverflow
    ensures out.written == AfterWrite(old(out.written), BloomierFields(WireOf(s)), out.capacity)
  {
    var ok := out.Write([IntField(s.filter.k), IntField(s.filter.q), LongField(s.filter.hashSeed),
                         TableField(s.filter.table), IntField(s.id), IntField(s.hops), LongField(s.timestamp)]);
    result := if ok then Pass else Fail(BufferOverflow);
  }

  /** `readObjectData` of the Bloomier serializer: a new summary from the fields read. */
  method ReadBloomier(r: FieldReader) returns (result: Option<BloomierContextSummary>)
    modifies r
    ensures var d := DecodeBloomier(r.fields, old(r.position));
      && (d.None? <==> result.None?)
      && (d.Some? ==> fresh(result.value) && WireOf(result.value) == d.value.0 && r.position == d.value.1)
  {
    var k := r.ReadInt();
    if k.None? { return None; }
    var q := r.ReadInt();
    if q.None? { return None; }
    var seed := r.ReadLong();
    if seed.None? { return None; }
    var table := r.ReadTable();
    if table.None? { return None; }
    var m := |table.value|;
    var id := r.ReadInt();
    if id.None? { return None; }
    var hops := r.ReadInt();
    if hops.None? { return None; }
    var timestamp := r.ReadLong();
    if timestamp.None? { return None; }
    var s := new BloomierContextSummary(m, k.value, q.value, seed.value, table.value, id.value, hops.value, timestamp.value);
    result := Some(s);
  }
}
