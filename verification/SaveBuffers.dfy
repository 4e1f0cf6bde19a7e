/** Buffered output to a file. */
module SaveBuffers {
  import opened Options

  class SaveBuffer<T> {
    var file: seq<T>
    const buffer: array<T>
    var size: nat
    var nodesCount: nat

    ghost predicate Valid()
      reads this`size
    {
      size <= buffer.Length
    }

    /** Everything that was stored. */
    ghost function Stored(): (s: seq<T>)
      requires Valid()
      reads this`file, this`size, buffer
    {
      file + buffer[..size]
    }

    constructor (capacity: nat, junk: T)
      ensures Valid() && Stored() == [] && buffer.Length == capacity && fresh(buffer) && nodesCount == 0
    {
      file, size, nodesCount := [], 0, 0;
      buffer := new T[capacity](i => junk);
    }

    method Flush()
      requires Valid()
      modifies this`file, this`size
      ensures Valid() && Stored() == old(Stored()) && size == 0 && file == old(Stored())
    {
      file := file + buffer[..size];
      size := 0;
    }

    /** A part of the buffer for the caller to fill before the next call. */
    method Acquire(request: nat) returns (at: Option<nat>)
      requires Valid()
      modifies this`file, this`size
      ensures Valid() && (at.Some? <==> request <= buffer.Length)
      ensures at.None? ==> Stored() == old(Stored())
      ensures at.Some? ==> at.value + request == size
                           && |Stored()| == |old(Stored())| + request && Stored()[..|old(Stored())|] == old(Stored())
    {
      if request > buffer.Length {
        return None;
      }
      if size + request > buffer.Length {
        Flush();
      }
      at := Some(size);
      size := size + request;
    }

    /** Writes to the end of the used part of the buffer. */
    method Fill(at: nat, data: seq<T>)
      requires Valid() && at + |data| == size
      modifies buffer
      ensures Valid() && Stored() == old(Stored())[..|old(Stored())| - |data|] + data
    {
      ghost var before := buffer[..at];
      var i := 0;
      while i < |data|
        invariant 0 <= i <= |data| && buffer[..at] == before && buffer[at..at + i] == data[..i]
      {
        buffer[at + i] := data[i];
        assert buffer[at..at + i + 1] == buffer[at..at + i] + [data[i]] && data[..i + 1] == data[..i] + [data[i]];
        i := i + 1;
      }
      assert data[..|data|] == data && buffer[at..at + |data|] == data;
      assert buffer[..size] == buffer[..at] + buffer[at..size];
    }

    /** Data that is larger than the buffer goes straight to the file. */
    method Store(data: seq<T>)
      requires Valid()
      modifies this`file, this`size, buffer
      ensures Valid() && Stored() == old(Stored()) + data
    {
      if |data| > buffer.Length {
        Flush();
        file := file + data;
        return;
      }
      if size + |data| >= buffer.Length {
        Flush();
      }
      size := size + |data|;
      Fill(size - |data|, data);
    }

    method Finalize()
      requires Valid()
      modifies this`file, this`size
      ensures file == old(Stored())
    {
      if size > 0 {
        Flush();
      }
    }
  }

  /** A part of the buffer that was filled, or data of any size. */
  datatype Write<T> = Filled(data: seq<T>) | Whole(data: seq<T>)

  function Written<T>(writes: seq<Write<T>>): seq<T> {
    if writes == [] then [] else Written(writes[..|writes| - 1]) + writes[|writes| - 1].data
  }

  /** Whatever is written in whatever way, the file ends up as all of it in order, and the buffer never overflows. */
  method WriteAll<T>(capacity: nat, junk: T, writes: seq<Write<T>>) returns (file: seq<T>)
    requires forall i :: 0 <= i < |writes| && writes[i].Filled? ==> |writes[i].data| <= capacity
    ensures file == Written(writes)
  {
    var output := new SaveBuffer<T>(capacity, junk);
    var i := 0;
    while i < |writes|
      invariant 0 <= i <= |writes| && output.Valid() && fresh(output.buffer) && output.buffer.Length == capacity
      invariant output.Stored() == Written(writes[..i])
    {
      assert writes[..i + 1][..i] == writes[..i];
      if writes[i].Whole? {
        output.Store(writes[i].data);
      } else {
        var at := output.Acquire(|writes[i].data|);
        output.Fill(at.value, writes[i].data);
      }
      i := i + 1;
    }
    assert writes[..i] == writes;
    output.Finalize();
    file := output.file;
  }
}
