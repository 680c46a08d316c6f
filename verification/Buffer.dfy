/** Buffer.h: a heap block with a capacity and a number of valid bytes at its front. */
module Buffer {
  import opened Wire

  class Buffer {
    var data: array<byte>
    var size: nat

    ghost predicate Valid()
      reads this, data
    {
      size <= data.Length
    }

    ghost function Contents(): Bytes
      requires Valid()
      reads this, data
    {
      data[..size]
    }

    constructor ()
      ensures Valid() && Contents() == [] && data.Length == 0 && fresh(data)
    {
      data, size := new byte[0], 0;
    }

    method Idle() returns (n: nat)
      requires Valid()
      ensures n == data.Length - size
    {
      n := data.Length - size;
    }

    /** Grows the block if it is too small; what it holds is kept. */
    method SetCapacity(n: nat)
      requires Valid()
      modifies this`data
      ensures Valid() && Contents() == old(Contents()) && (data == old(data) || fresh(data))
      ensures data.Length == if n <= old(data.Length) then old(data.Length) else n
    {
      if n <= data.Length { return; }
      var bigger := new byte[n];
      for i := 0 to data.Length
        modifies bigger
        invariant bigger[..i] == data[..i]
      {
        bigger[i] := data[i];
      }
      data := bigger;
    }

    /** A size above the capacity is refused. */
    method SetSize(n: nat)
      modifies this`size
      ensures size == if n <= data.Length then n else old(size)
    {
      if n <= data.Length { size := n; }
    }

    /** The bytes [start, end) move to the front and become the contents. */
    method Align(start: nat, end: nat) returns (ok: bool)
      requires Valid() && end <= data.Length
      modifies this`size, data
      ensures Valid() && ok == (start < end)
      ensures ok ==> Contents() == old(data[start..end])
      ensures !ok ==> size == old(size) && data[..] == old(data[..])
    {
      if start >= end || end - start > data.Length { return false; }
      ghost var before := data[..];
      for i := 0 to end - start
        invariant data[..i] == before[start..start + i]
        invariant forall k :: i <= k < data.Length ==> data[k] == before[k]
      {
        data[i] := data[start + i];
      }
      SetSize(end - start);
      return true;
    }

    /** Socket.h recvFromSocket and the drain loop of KcpClient: bytes arrive behind the contents. */
    method Append(chunk: Bytes)
      requires Valid() && |chunk| <= data.Length - size
      modifies this`size, data
      ensures Valid() && Contents() == old(Contents()) + chunk
    {
      for i := 0 to |chunk|
        modifies data
        invariant data[..size + i] == old(Contents()) + chunk[..i]
      {
        data[size + i] := chunk[i];
      }
      SetSize(size + |chunk|);
      assert chunk[..|chunk|] == chunk;
    }

    method Reset()
      modifies this`size
      ensures size == 0
    {
      size := 0;
    }
  }
}
