/**
 * The older generation of the summary classes: a hash-map summary that
 * keeps its id as an ordinary entry under a reserved key, and the
 * five-field Bloomier serializer that carries only the filter.
 */
module Legacy {
  import opened Common
  import opened Summary
  import opened Fields

  /** The reserved key under which the older summary keeps its id. */
  const ContextIdentifier: string := "_context_identifier_id"

  /** The older HashMapContextSummary: a HashMap whose id is one of its entries. */
  class LegacyContextSummary {
    var entries: map<string, int>

    /** `new HashMapContextSummary(id)`: `create(id)` puts the id under the reserved key. */
    constructor (id: int)
      ensures entries == map[ContextIdentifier := id]
      ensures GetId() == Some(id) && |entries| == 1
    {
      entries := map[ContextIdentifier := id];
      new;
      assert entries.Keys == {ContextIdentifier};
    }

    /**
     * `get(key)`: the stored value, or null when absent. Both generations
     * of the class inherit HashMap's lookup; each states it on its own
     * entries.
     */
    function Get(key: string): (r: Option<int>)
      reads this
      ensures r.Some? <==> key in entries
      ensures r.Some? ==> r.value == entries[key]
    {
      MapGet(entries, key)
    }

    /**
     * `getId()`: the value under the reserved key; `None` stands for the
     * NullPointerException of unboxing a missing entry.
     */
    function GetId(): (r: Option<int>)
      reads this
      ensures r.Some? <==> ContextIdentifier in entries
      ensures r.Some? ==> r.value == entries[ContextIdentifier]
    {
      Get(ContextIdentifier)
    }

    /** `put(key, value)`, inherited from HashMap. */
    method Put(key: string, value: int)
      modifies this
      ensures entries == old(entries)[key := value]
    {
      entries := entries[key := value];
    }
  }

  /**
   * Because the id is an entry, writing the reserved key rewrites the id,
   * and writing any other key leaves it alone.
   */
  method PutChangesId(s: LegacyContextSummary, key: string, value: int)
    modifies s
    ensures key == ContextIdentifier ==> s.GetId() == Some(value)
    ensures key != ContextIdentifier ==> s.GetId() == old(s.GetId())
  {
    s.Put(key, value);
  }

  /** What the older Bloomier serializer writes: m, k, q, hash seed and table. */
  function LegacyFields(f: BloomierFilter): seq<Field> {
    [IntField(f.m), IntField(f.k), IntField(f.q), LongField(f.hashSeed), TableField(f.table)]
  }

  /** What the older Bloomier serializer reads back from position pos. */
  function DecodeLegacy(fs: seq<Field>, pos: nat): Option<(BloomierFilter, nat)> {
    match (IntAt(fs, pos), IntAt(fs, pos + 1), IntAt(fs, pos + 2), LongAt(fs, pos + 3), TableAt(fs, pos + 4))
    case (Some(m), Some(k), Some(q), Some(seed), Some(table)) => Some((BloomierFilter(m, k, q, seed, table), pos + 5))
    case _ => None
  }

  /** Round trip of the older format: all five filter fields come back unchanged. */
  lemma LegacyRoundTrip(prefix: seq<Field>, f: BloomierFilter, rest: seq<Field>)
    ensures DecodeLegacy(prefix + LegacyFields(f) + rest, |prefix|) == Some((f, |prefix| + 5))
  {
    var fs := prefix + LegacyFields(f) + rest;
    forall j | 0 <= j < 5 ensures fs[|prefix| + j] == LegacyFields(f)[j] {
    }
  }

  /**
   * `writeObjectData` of the older serializer: the five fields in order;
   * any failure is rethrown wrapped in a RuntimeException.
   */
  method WriteLegacy(out: FieldWriter, f: BloomierFilter) returns (result: Outcome<WriteError>)
    requires out.Valid()
    modifies out
    ensures out.Valid()
    ensures result.Pass? <==> |old(out.written)| + 5 <= out.capacity
    ensures result.Fail? ==> result.error == RuntimeException(BufferOverflow)
    ensures out.written == AfterWrite(old(out.written), LegacyFields(f), out.capacity)
  {
    var ok := out.Write([IntField(f.m), IntField(f.k), IntField(f.q), LongField(f.hashSeed), TableField(f.table)]);
    if ok {
      result := Pass;
    } else {
      result := Fail(RuntimeException(BufferOverflow));
    }
  }

  /** `readObjectData` of the older serializer. */
  method ReadLegacy(r: FieldReader) returns (result: Option<BloomierFilter>)
    modifies r
    ensures var d := DecodeLegacy(r.fields, old(r.position));
      && (d.None? <==> result.None?)
      && (d.Some? ==> result == Some(d.value.0) && r.position == d.value.1)
  {
    var m := r.ReadInt();
    if m.None? { return None; }
    var k := r.ReadInt();
    if k.None? { return None; }
    var q := r.ReadInt();
    if q.None? { return None; }
    var seed := r.ReadLong();
    if seed.None? { return None; }
    var table := r.ReadTable();
    if table.None? { return None; }
    result := Some(BloomierFilter(m.value, k.value, q.value, seed.value, table.value));
  }
}
