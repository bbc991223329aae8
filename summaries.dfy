/**
 * Context summaries: the plain key/value summary a node keeps about itself,
 * the labelled wire form of it (hop count and creation timestamp), and the
 * compact Bloomier-filter form that travels between nodes.
 *
 * Java's class inheritance (a labelled summary *is* a hash-map summary) is
 * modelled by composition: a `LabeledContextSummary` owns the
 * `HashMapContextSummary` that holds its entries, id and hash-seed hint.
 * Java getters such as `getHops()` or `getTimestamp()` are the fields
 * themselves; fields that Java declares `final` (or only ever assigns in a
 * constructor) are `const`.
 */
module Summary {
  import opened Common

  /** A node's own summary: a map from attribute names to integer values. */
  class HashMapContextSummary {
    var entries: map<string, int>
    const id: int
    var hashSeedHint: int

    /** `new HashMapContextSummary(id)`: no entries, hash-seed hint 0. */
    constructor (id: int)
      ensures this.id == id
      ensures entries == map[] && hashSeedHint == 0
    {
      this.id := id;
      entries := map[];
      hashSeedHint := 0;
    }

    /** The copy constructor: same entries, id and hash-seed hint. */
    constructor Copy(other: HashMapContextSummary)
      ensures id == other.id
      ensures entries == other.entries && hashSeedHint == other.hashSeedHint
    {
      id := other.id;
      entries := other.entries;
      hashSeedHint := other.hashSeedHint;
    }

    /** `get(key)`: the stored value, or null when the key is absent. */
    function Get(key: string): (r: Option<int>)
      reads this
      ensures r.Some? <==> key in entries
      ensures r.Some? ==> r.value == entries[key]
    {
      MapGet(entries, key)
    }

    /** `put(key, value)`, inherited from HashMap. */
    method Put(key: string, value: int)
      modifies this
      ensures entries == old(entries)[key := value]
      ensures hashSeedHint == old(hashSeedHint)
    {
      entries := entries[key := value];
    }

    /** `remove(key)`, inherited from HashMap. */
    method Remove(key: string)
      modifies this
      ensures entries == old(entries) - {key}
      ensures hashSeedHint == old(hashSeedHint)
    {
      entries := entries - {key};
    }

    method SetHashSeedHint(hint: int)
      modifies this
      ensures hashSeedHint == hint && entries == old(entries)
    {
      hashSeedHint := hint;
    }
  }

  /** A hash-map summary labelled with a hop count and a creation timestamp. */
  class LabeledContextSummary {
    const hashMap: HashMapContextSummary
    var hops: int
    const timestamp: int

    /** `new LabeledContextSummary(map, hops, timestamp)`: copies the map. */
    constructor (source: HashMapContextSummary, hops: int, timestamp: int)
      ensures fresh(hashMap)
      ensures hashMap.id == source.id && hashMap.entries == source.entries
      ensures hashMap.hashSeedHint == source.hashSeedHint
      ensures this.hops == hops && this.timestamp == timestamp
    {
      hashMap := new HashMapContextSummary.Copy(source);
      this.hops := hops;
      this.timestamp := timestamp;
    }

    /**
     * `new LabeledContextSummary(summary)`: hop count 0, stamped with the
     * clock reading `now` (System.nanoTime in the source).
     */
    constructor Label(summary: HashMapContextSummary, now: int)
      ensures fresh(hashMap)
      ensures hashMap.id == summary.id && hashMap.entries == summary.entries
      ensures hashMap.hashSeedHint == summary.hashSeedHint
      ensures hops == 0 && timestamp == now
    {
      hashMap := new HashMapContextSummary.Copy(summary);
      hops := 0;
      timestamp := now;
    }

    /** The copy constructor: entries, id, hint, hops and timestamp. */
    constructor Copy(other: LabeledContextSummary)
      ensures fresh(hashMap)
      ensures hashMap.id == other.hashMap.id && hashMap.entries == other.hashMap.entries
      ensures hashMap.hashSeedHint == other.hashMap.hashSeedHint
      ensures hops == other.hops && timestamp == other.timestamp
    {
      hashMap := new HashMapContextSummary.Copy(other.hashMap);
      hops := other.hops;
      timestamp := other.timestamp;
    }

    /** `getWireCopy()`: an independent copy that shares nothing mutable. */
    method GetWireCopy() returns (c: LabeledContextSummary)
      ensures fresh(c) && fresh(c.hashMap)
      ensures c.hashMap.id == hashMap.id && c.hashMap.entries == hashMap.entries
      ensures c.hashMap.hashSeedHint == hashMap.hashSeedHint
      ensures c.hops == hops && c.timestamp == timestamp
    {
      c := new LabeledContextSummary.Copy(this);
    }

    /** `incrementHops()`: `++hops`, returning the new count. */
    method IncrementHops() returns (h: int)
      modifies this
      ensures hops == old(hops) + 1 && h == hops
    {
      hops := hops + 1;
      h := hops;
    }
  }

  /**
   * The state of an immutable Bloomier filter: table rows m, hash functions
   * k, bits per row q, the hash seed it was built with, and the table.
   */
  datatype BloomierFilter = BloomierFilter(m: int, k: int, q: int, hashSeed: int, table: seq<seq<Byte>>)

  /**
   * What the filter library is asked to build for a summary: its entries,
   * the three sizing parameters, and the hash-seed hint to start from.
   */
  datatype FilterRequest = FilterRequest(entries: map<string, int>, m: int, k: int, q: int, seedHint: int)

  /** What a successful build yields: the seed that worked, and the table. */
  datatype BuiltTable = BuiltTable(hashSeed: int, table: seq<seq<Byte>>)

  /**
   * The filter library's construction algorithm, which is not part of this
   * model; `None` is its TimeoutException.
   */
  type FilterBuilder = FilterRequest -> Option<BuiltTable>

  /**
   * The lookup of a key in a Bloomier filter, which is not part of this
   * model; `None` is a null result.
   */
  type FilterLookup = (BloomierFilter, string) -> Option<int>

  /**
   * m = max(1, (int)(n * 1.20)): the table has 20% more rows than the map
   * has keys, truncated toward zero, and at least one row. For map sizes a
   * Java int can hold, the double product truncates to exactly 6n/5.
   */
  function TableRows(n: nat): (m: nat)
    ensures m >= 1
    ensures m >= n
    ensures n > 0 ==> 5 * m <= 6 * n < 5 * (m + 1)
    ensures n == 0 ==> m == 1
  {
    if 6 * n / 5 < 1 then 1 else 6 * n / 5
  }

  /** k = (m < 40) ? 2 : 3. */
  function HashCount(m: int): (k: int)
    ensures k == 2 || k == 3
    ensures k == 2 <==> m < 40
  {
    if m < 40 then 2 else 3
  }

  /** q = (int)(Integer.SIZE * 1.30): 30% more bits than the 32 stored, truncated. */
  function RowBits(): (q: nat)
    ensures 10 * q <= 32 * 13 < 10 * (q + 1)
  {
    32 * 13 / 10
  }

  /** The request the map constructor makes of the filter library. */
  function RequestFor(entries: map<string, int>, seedHint: int): FilterRequest {
    var m := TableRows(|entries|);
    FilterRequest(entries, m, HashCount(m), RowBits(), seedHint)
  }

  /**
   * What the code that reads a summary through the ContextSummary
   * interface sees of it: a map's entries, or a filter answering lookups.
   */
  datatype Content =
    | Entries(entries: map<string, int>)
    | Filtered(filter: BloomierFilter, lookup: FilterLookup)

  /** `get(key)` through the ContextSummary interface. */
  function Lookup(c: Content, key: string): Option<int> {
    match c
    case Entries(e) => MapGet(e, key)
    case Filtered(f, lookup) => lookup(f, key)
  }

  /** A summary as seen through the ContextSummary interface: its id and content. */
  datatype SummaryView = SummaryView(id: int, content: Content)

  /** A summary in Bloomier-filter form, as it travels between nodes. */
  class BloomierContextSummary {
    const filter: BloomierFilter
    const id: int
    var hops: int
    const timestamp: int

    /** The explicit constructor, as the deserializer uses it. */
    constructor (m: int, k: int, q: int, hashSeed: int, table: seq<seq<Byte>>, id: int, hops: int, timestamp: int)
      ensures filter == BloomierFilter(m, k, q, hashSeed, table)
      ensures this.id == id && this.hops == hops && this.timestamp == timestamp
    {
      filter := BloomierFilter(m, k, q, hashSeed, table);
      this.id := id;
      this.hops := hops;
      this.timestamp := timestamp;
    }

    /**
     * The map constructor: the filter is sized by `RequestFor`, its seed and
     * table are what the library built for that request, the id is the
     * map's, the hop count starts at 0 and the timestamp is the clock
     * reading `now`.
     */
    constructor FromMap(other: HashMapContextSummary, hashSeedHint: int, built: BuiltTable, now: int)
      ensures var r := RequestFor(other.entries, hashSeedHint);
        filter == BloomierFilter(r.m, r.k, r.q, built.hashSeed, built.table)
      ensures id == other.id && hops == 0 && timestamp == now
    {
      var r := RequestFor(other.entries, hashSeedHint);
      filter := BloomierFilter(r.m, r.k, r.q, built.hashSeed, built.table);
      id := other.id;
      hops := 0;
      timestamp := now;
    }

    /** The copy constructor: same filter, id, hop count and timestamp. */
    constructor Copy(other: BloomierContextSummary)
      ensures filter == other.filter && id == other.id
      ensures hops == other.hops && timestamp == other.timestamp
    {
      filter := other.filter;
      id := other.id;
      hops := other.hops;
      timestamp := other.timestamp;
    }

    /** `getWireCopy()` (and `getCopy()`, which calls it). */
    method GetWireCopy() returns (c: BloomierContextSummary)
      ensures fresh(c)
      ensures c.filter == filter && c.id == id && c.hops == hops && c.timestamp == timestamp
    {
      c := new BloomierContextSummary.Copy(this);
    }

    /** What `get(key)` and `getId()` see of this summary. */
    function View(lookup: FilterLookup): SummaryView {
      SummaryView(id, Filtered(filter, lookup))
    }

    /** `incrementHops()`: `++hops`, returning the new count. */
    method IncrementHops() returns (h: int)
      modifies this
      ensures hops == old(hops) + 1 && h == hops
    {
      hops := hops + 1;
      h := hops;
    }
  }

  /**
   * `getBloomierCopy()` of a node's own summary: the Bloomier form built by
   * the map constructor with the summary's own hash-seed hint, or `None`
   * when the filter library times out.
   */
  method BloomierCopy(local: HashMapContextSummary, build: FilterBuilder, now: int)
    returns (copy: Option<BloomierContextSummary>)
    ensures build(RequestFor(local.entries, local.hashSeedHint)).None? <==> copy.None?
    ensures copy.Some? ==>
      var built := build(RequestFor(local.entries, local.hashSeedHint)).value;
      var r := RequestFor(local.entries, local.hashSeedHint);
      && fresh(copy.value)
      && copy.value.filter == BloomierFilter(r.m, r.k, r.q, built.hashSeed, built.table)
      && copy.value.id == local.id && copy.value.hops == 0 && copy.value.timestamp == now
  {
    var outcome := build(RequestFor(local.entries, local.hashSeedHint));
    if outcome.None? {
      copy := None;
    } else {
      var c := new BloomierContextSummary.FromMap(local, local.hashSeedHint, outcome.value, now);
      copy := Some(c);
    }
  }
}
