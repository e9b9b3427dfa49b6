/** Non-volatile memory as the upper layers see it (dev/nvmem.c): a flat array of bytes. */
module NvMem {
  type byte = b: nat | b < 256

  /** The memory with `data` stored at `pos`. */
  function Overwrite(mem: seq<byte>, pos: nat, data: seq<byte>): (mem': seq<byte>)
    requires pos + |data| <= |mem|
    ensures |mem'| == |mem|
  {
    mem[..pos] + data + mem[pos + |data|..]
  }

  lemma OverwriteRead(mem: seq<byte>, pos: nat, data: seq<byte>)
    requires pos + |data| <= |mem|
    ensures Overwrite(mem, pos, data)[pos..pos + |data|] == data
  {
  }

  /** Storing piece by piece. */
  lemma OverwriteAppend(mem: seq<byte>, pos: nat, a: seq<byte>, b: seq<byte>)
    requires pos + |a| + |b| <= |mem|
    ensures Overwrite(Overwrite(mem, pos, a), pos + |a|, b) == Overwrite(mem, pos, a + b)
  {
    var m := Overwrite(mem, pos, a);
    assert m[..pos + |a|] == mem[..pos] + a;
    assert m[pos + |a| + |b|..] == mem[pos + |a| + |b|..];
  }

  lemma OverwriteSame(mem: seq<byte>, pos: nat, data: seq<byte>)
    requires pos + |data| <= |mem| && mem[pos..pos + |data|] == data
    ensures Overwrite(mem, pos, data) == mem
  {
  }
}
