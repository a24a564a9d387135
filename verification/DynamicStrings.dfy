/** src/utils/string.c: the growable byte buffer under request parsing and response printing. */
module DynamicStrings {
  import opened CBytes

  class DynamicString {
    var data: array<byte>
    var size: nat
    var capacity: nat

    /** One byte more than the capacity is allocated, for the terminator. */
    ghost predicate Valid()
      reads this
    {
      data.Length == capacity + 1 && size <= capacity
    }

    ghost function Contents(): seq<byte>
      requires Valid()
      reads this, data
    {
      data[..size]
    }

    ghost predicate Terminated()
      requires Valid()
      reads this, data
    {
      data[size] == NUL
    }

    /** `CreateDynamicString`, which refuses a capacity of 0. */
    constructor (initialCapacity: nat)
      requires initialCapacity > 0
      ensures Valid() && Contents() == [] && capacity == initialCapacity && fresh(data)
    {
      data := new byte[initialCapacity + 1];
      size, capacity := 0, initialCapacity;
    }

    /** `ExpandDynamicString`: `realloc` moves the bytes to a larger block. */
    method Expand(additionalCapacity: nat)
      requires Valid()
      modifies this`data, this`capacity
      ensures Valid() && fresh(data) && size == old(size)
      ensures capacity == old(capacity) + additionalCapacity
      ensures data[..old(data.Length)] == old(data[..])
    {
      var bigger := new byte[capacity + additionalCapacity + 1];
      var i := 0;
      while i < data.Length
        invariant 0 <= i <= data.Length && bigger[..i] == data[..i]
        modifies bigger
      {
        bigger[i] := data[i];
        i := i + 1;
      }
      assert data[..] == data[..data.Length];
      data := bigger;
      capacity := capacity + additionalCapacity;
    }

    /** Room for `total` bytes: the growth shared by append, set and prefix. */
    method Reserve(total: nat)
      requires Valid()
      modifies this`data, this`capacity
      ensures Valid() && size == old(size)
      ensures data == old(data) || fresh(data)
      ensures Contents() == old(Contents())
      ensures capacity == if total > old(capacity) then total else old(capacity)
    {
      if total > capacity {
        Expand(total - capacity);
        assert data[..size] == data[..old(data.Length)][..size];
        assert old(data[..size]) == old(data[..])[..size];
      }
    }

    /** `memcpy(data + at, source, |source|)`. */
    method CopyIn(at: nat, source: seq<byte>)
      requires Valid() && at + |source| <= capacity
      modifies data
      ensures data[at..at + |source|] == source
      ensures data[..at] == old(data[..at]) && data[at + |source|..] == old(data[at + |source|..])
    {
      var i := 0;
      while i < |source|
        invariant 0 <= i <= |source|
        invariant data[at..at + i] == source[..i]
        invariant data[..at] == old(data[..at]) && data[at + i..] == old(data[at + i..])
      {
        data[at + i] := source[i];
        i := i + 1;
      }
    }

    /** `AppendDynamicString`. */
    method Append(source: seq<byte>)
      requires Valid()
      modifies this, data
      ensures Valid() && Terminated() && (data == old(data) || fresh(data))
      ensures Contents() == old(Contents()) + source
    {
      Reserve(size + |source|);
      CopyIn(size, source);
      assert data[..size + |source|] == data[..size] + data[size..size + |source|];
      size := size + |source|;
      data[size] := NUL;
    }

    /** `SetDynamicString`: the old text is zeroed before the new one is copied in. */
    method Set(source: seq<byte>)
      requires Valid()
      modifies this, data
      ensures Valid() && Terminated() && (data == old(data) || fresh(data))
      ensures Contents() == source
    {
      Reserve(|source|);
      var i := 0;
      while i < size
        invariant 0 <= i <= size
        modifies data
      {
        data[i] := NUL;
        i := i + 1;
      }
      CopyIn(0, source);
      size := |source|;
      data[size] := NUL;
    }

    /** `memmove(data + n, data, size)`: the text is shifted up, last byte first. */
    method ShiftUp(n: nat)
      requires Valid() && size + n <= capacity
      modifies data
      ensures data[n..n + size] == old(data[..size])
    {
      var i := size;
      while i > 0
        invariant 0 <= i <= size
        invariant forall k :: 0 <= k < i ==> data[k] == old(data[k])
        invariant forall k :: i <= k < size ==> data[n + k] == old(data[k])
      {
        i := i - 1;
        data[n + i] := data[i];
      }
    }

    /** `PrefixDynamicString`. */
    method Prefix(prefix: seq<byte>)
      requires Valid()
      modifies this, data
      ensures Valid() && (data == old(data) || fresh(data))
      ensures Contents() == prefix + old(Contents())
      ensures prefix != [] ==> Terminated()
    {
      if prefix == [] {
        return;
      }
      var n := |prefix|;
      Reserve(size + n);
      ghost var text := data[..size];
      ShiftUp(n);
      ghost var tail := data[n..];
      assert tail[..size] == text;
      CopyIn(0, prefix);
      assert data[n..] == tail && data[..n] == prefix;
      assert data[..n + size] == data[..n] + data[n..][..size];
      size := size + n;
      data[size] := NUL;
    }
  }
}
