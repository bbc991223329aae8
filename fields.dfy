/**
 * The serializers' view of a Kryo stream: a sequence of typed fields
 * (Kryo's own byte encoding of each primitive is not part of this model).
 * A writer has a fixed capacity, in fields, and a write that does not fit
 * fails the way a full ByteBuffer throws BufferOverflowException; a reader
 * advances a position and fails on a missing or mistyped field.
 */
module Fields {
  import opened Common

  datatype Field =
    | IntField(i: int)
    | LongField(l: int)
    | StringField(s: string)
    | TableField(t: seq<seq<Byte>>)

  /** How a serializer's write fails: the buffer is full, possibly wrapped by the caller. */
  datatype WriteError = BufferOverflow | RuntimeException(cause: WriteError)

  /**
   * The stream after writing fs to a stream holding `before`: as many of
   * the fields as fit.
   */
  function AfterWrite(before: seq<Field>, fs: seq<Field>, capacity: nat): (r: seq<Field>)
    requires |before| <= capacity
    ensures |r| <= capacity
    ensures before <= r
    ensures |before| + |fs| <= capacity ==> r == before + fs
    ensures |before| + |fs| > capacity ==> |r| == capacity
  {
    before + fs[..Min(|fs|, capacity - |before|)]
  }

  class FieldWriter {
    var written: seq<Field>
    const capacity: nat

    ghost predicate Valid()
      reads this
    {
      |written| <= capacity
    }

    constructor (capacity: nat)
      ensures Valid()
      ensures written == [] && this.capacity == capacity
    {
      written := [];
      this.capacity := capacity;
    }

    /** Writes the fields in order; fails when they do not all fit. */
    method Write(fs: seq<Field>) returns (ok: bool)
      requires Valid()
      modifies this
      ensures Valid()
      ensures ok <==> |old(written)| + |fs| <= capacity
      ensures written == AfterWrite(old(written), fs, capacity)
    {
      ok := |written| + |fs| <= capacity;
      written := AfterWrite(written, fs, capacity);
    }
  }

  function IntAt(fs: seq<Field>, pos: nat): Option<int> {
    if pos < |fs| && fs[pos].IntField? then Some(fs[pos].i) else None
  }

  function LongAt(fs: seq<Field>, pos: nat): Option<int> {
    if pos < |fs| && fs[pos].LongField? then Some(fs[pos].l) else None
  }

  function StringAt(fs: seq<Field>, pos: nat): Option<string> {
    if pos < |fs| && fs[pos].StringField? then Some(fs[pos].s) else None
  }

  function TableAt(fs: seq<Field>, pos: nat): Option<seq<seq<Byte>>> {
    if pos < |fs| && fs[pos].TableField? then Some(fs[pos].t) else None
  }

  class FieldReader {
    const fields: seq<Field>
    var position: nat

    constructor (fields: seq<Field>, position: nat)
      ensures this.fields == fields && this.position == position
    {
      this.fields := fields;
      this.position := position;
    }

    method ReadInt() returns (r: Option<int>)
      modifies this
      ensures r == IntAt(fields, old(position))
      ensures position == old(position) + (if r.Some? then 1 else 0)
    {
      r := IntAt(fields, position);
      if r.Some? {
        position := position + 1;
      }
    }

    method ReadLong() returns (r: Option<int>)
      modifies this
      ensures r == LongAt(fields, old(position))
      ensures position == old(position) + (if r.Some? then 1 else 0)
    {
      r := LongAt(fields, position);
      if r.Some? {
        position := position + 1;
      }
    }

    method ReadString() returns (r: Option<string>)
      modifies this
      ensures r == StringAt(fields, old(position))
      ensures position == old(position) + (if r.Some? then 1 else 0)
    {
      r := StringAt(fields, position);
      if r.Some? {
        position := position + 1;
      }
    }

    method ReadTable() returns (r: Option<seq<seq<Byte>>>)
      modifies this
      ensures r == TableAt(fields, old(position))
      ensures position == old(position) + (if r.Some? then 1 else 0)
    {
      r := TableAt(fields, position);
      if r.Some? {
        position := position + 1;
      }
    }
  }
}
