/** Reading a range of a file over a backend that may answer short. */
module RangedRead {
  import opened Prelude

  type byte = b: int | 0 <= b < 256

  const U64_MAX: nat := 0xFFFF_FFFF_FFFF_FFFF
  const CHUNK: nat := 256 * 1024

  type U64 = n: nat | n <= U64_MAX

  function SaturatingAdd(a: U64, b: U64): (sum: U64)
    ensures a <= sum <= a + b
  {
    if a + b > U64_MAX then U64_MAX else a + b
  }

  function Min(a: nat, b: nat): nat {
    if a < b then a else b
  }

  /** The bytes of a range that exist. */
  function Slice(content: seq<byte>, from: nat, until: nat): seq<byte> {
    if from >= |content| || until <= from then [] else content[from..Min(until, |content|)]
  }

  /** How many bytes the backend answers at an offset for a wanted count, none for a
      failure. An offset is asked for at most once in a read. */
  type Backend = (nat, nat) -> Option<nat>

  /** Some bytes, but no more than asked for, as long as there are any; none at the end. */
  ghost predicate Honest(serve: Backend, content: seq<byte>) {
    forall off: nat, want: nat :: serve(off, want).Some? ==>
      var n := serve(off, want).value;
      n <= want && off + n <= Max(off, |content|) && (off < |content| && want > 0 ==> n > 0)
  }

  function Max(a: nat, b: nat): nat {
    if a < b then b else a
  }

  datatype Result<+T> = Ok(value: T) | Err

  class File {
    const content: seq<byte>
    const serve: Backend
    var offset: U64

    ghost predicate Valid()
      reads this
    {
      Honest(serve, content) && |content| <= U64_MAX
    }

    constructor (content: seq<byte>, serve: Backend)
      requires Honest(serve, content) && |content| <= U64_MAX
      ensures Valid() && offset == 0 && this.content == content && this.serve == serve
    {
      this.content := content;
      this.serve := serve;
      this.offset := 0;
    }

    method Seek(pos: U64)
      requires Valid()
      modifies this
      ensures Valid() && offset == pos
    {
      offset := pos;
    }

    /** The next bytes at the cursor, which moves past them; a failure leaves it. */
    method ReadBytes(count: U64) returns (data: Result<seq<byte>>)
      requires Valid()
      modifies this
      ensures Valid()
      ensures data.Err? ==> offset == old(offset) && serve(offset, SaturatingAdd(offset, count) - offset).None?
      ensures data.Ok? ==>
                && offset == old(offset) + |data.value| && |data.value| <= count
                && data.value == Slice(content, old(offset), offset)
                && (old(offset) < |content| && count > 0 ==> data.value != [])
                && (old(offset) >= |content| ==> data.value == [])
    {
      var end := SaturatingAdd(offset, count);
      var n := serve(offset, end - offset);
      if n.None? {
        return Err;
      }
      var bytes := Slice(content, offset, offset + n.value);
      offset := SaturatingAdd(offset, |bytes|);
      return Ok(bytes);
    }
  }

  /** A backend that never fails. */
  ghost predicate Reliable(serve: Backend) {
    forall off: nat, want: nat :: serve(off, want).Some?
  }

  /** The forwarded read: from the offset, to the size or the end of the file. Short
      answers cost more turns and change nothing else. */
  method ForwardRead(content: seq<byte>, serve: Backend, offset: Option<U64>, size: Option<U64>)
    returns (result: Result<seq<byte>>)
    requires Honest(serve, content) && |content| <= U64_MAX
    ensures Reliable(serve) ==> result.Ok?
    ensures result.Ok? ==>
              var from := if offset.Some? then offset.value else 0;
              result.value == Slice(content, from, if size.Some? then from + size.value else |content|)
  {
    var file := new File(content, serve);
    if offset.Some? {
      file.Seek(offset.value);
    }
    var from := file.offset;
    var out: seq<byte> := [];
    SliceEmpty(content, from);
    hide Slice, Honest, SaturatingAdd;
    while true
      invariant file.Valid() && file.content == content && file.serve == serve
      invariant file.offset == from + |out| && (size.Some? ==> |out| <= size.value)
      invariant out == Slice(content, from, file.offset)
      decreases Max(from, |content|) - file.offset
    {
      var want := if size.None? then CHUNK else size.value - |out|;
      if want == 0 {
        break;
      }
      var chunk := file.ReadBytes(Min(want, CHUNK));
      if chunk.Err? {
        return Err;
      }
      if chunk.value == [] {
        SliceClips(content, from, file.offset, if size.Some? then from + size.value else |content|);
        break;
      }
      SlicesJoin(content, from, from + |out|, file.offset);
      out := out + chunk.value;
    }
    return Ok(out);
  }

  lemma SliceEmpty(content: seq<byte>, at: nat)
    ensures Slice(content, at, at) == []
  {
  }

  /** Beyond the end of the file a slice does not grow. */
  lemma SliceClips(content: seq<byte>, from: nat, a: nat, b: nat)
    requires from <= a && |content| <= a && |content| <= b
    ensures Slice(content, from, a) == Slice(content, from, b)
  {
  }

  lemma SlicesJoin(content: seq<byte>, a: nat, b: nat, c: nat)
    requires a <= b < |content| && b <= c
    ensures Slice(content, a, b) + Slice(content, b, c) == Slice(content, a, c)
  {
  }
}
