/** The configuration store in serial DataFlash: dev/nvmem_at45d.c over dev/spi_at45d.c. */
module FlashConfig {
  import opened NvMem

  /** Address of a page's first byte. */
  function PageStart(p: nat, psize: nat): nat {
    p * psize
  }

  /** Every byte of [pos, pos + |data|) is old or new, every other byte is old. */
  predicate PartlyWritten(before: seq<byte>, after: seq<byte>, pos: nat, data: seq<byte>) {
    && |after| == |before| && pos + |data| <= |before|
    && forall i :: 0 <= i < |before| ==> after[i] == before[i] || (pos <= i < pos + |data| && after[i] == data[i - pos])
  }

  /** Page `p` holds a byte that has to change. */
  predicate NeedsPage(mem: seq<byte>, psize: nat, pos: nat, data: seq<byte>, p: nat)
    requires pos + |data| <= |mem|
  {
    exists i :: 0 <= i < |data| && p * psize <= pos + i < (p + 1) * psize && mem[pos + i] != data[i]
  }

  /** How often the chip is asked whether it has finished. */
  const AT45_WRITE_POLLS := 1000

  /** What a status query comes to: it fails on the bus, or it reads the status byte. */
  datatype Answer = Failed | Reads(sr: byte)

  /** At45dStatus: the -1 of a query that failed becomes 0xFF when it is cast. */
  function StatusByte(a: Answer): byte {
    if a.Failed? then 0xFF else a.sr
  }

  /** Bit 0x80 of the status byte. */
  predicate Ready(a: Answer) {
    StatusByte(a) / 0x80 == 1
  }

  class At45d {
    const psize: nat
    const pages: nat
    const cpage: nat
    const csize: nat
    /** The flash contents, all pages in a row, and the chip's RAM buffer. */
    var mem: seq<byte>
    var buf1: seq<byte>
    /** The pages programmed so far. */
    ghost var programmed: seq<nat>
    /** Whether the n-th command or allocation fails, and what the n-th status query comes to. */
    const fails: nat -> bool
    const answer: nat -> Answer
    var tried: nat
    var asked: nat
    /** How many commands, allocations and waits have failed so far and been reported. */
    ghost var failures: nat

    constructor (psize: nat, pages: nat, cpage: nat, csize: nat, mem: seq<byte>, buf1: seq<byte>, fails: nat -> bool,
        answer: nat -> Answer)
      ensures this.psize == psize && this.pages == pages && this.cpage == cpage && this.csize == csize
      ensures this.mem == mem && this.buf1 == buf1 && this.fails == fails && this.answer == answer
      ensures programmed == [] && tried == 0 && asked == 0 && failures == 0
    {
      this.psize, this.pages, this.cpage, this.csize := psize, pages, cpage, csize;
      this.mem, this.buf1, this.fails, this.answer := mem, buf1, fails, answer;
      tried, asked, programmed, failures := 0, 0, [], 0;
    }

    ghost predicate Valid()
      reads this
    {
      && 0 < psize && |mem| == PageStart(pages, psize) && |buf1| == psize
      // The configuration area lies inside the chip.
      && cpage < pages && PageStart(cpage, psize) + csize <= |mem|
    }

    /** Nothing fails that is reported: commands and allocations succeed, and the status never reads busy. */
    ghost predicate Smooth() {
      (forall n :: !fails(n)) && (forall n :: Ready(answer(n)))
    }

    /** Sends a command; the bus may fail. */
    method Command() returns (rc: int)
      modifies this`failures, this`tried
      ensures (rc == 0 && failures == old(failures)) || (rc == -1 && failures == old(failures) + 1)
      ensures Smooth() ==> rc == 0
    {
      rc := if fails(tried) then -1 else 0;
      failures := failures - rc;
      tried := tried + 1;
    }

    /** The heap may be exhausted. */
    method Malloc() returns (ok: bool)
      modifies this`failures, this`tried
      ensures failures == if ok then old(failures) else old(failures) + 1
      ensures Smooth() ==> ok
    {
      ok := !fails(tried);
      failures := if ok then failures else failures + 1;
      tried := tried + 1;
    }

    /** All answers to `tmo` queries and one more say that the chip is busy. */
    predicate TimesOut(first: nat, tmo: nat) {
      forall n :: first <= n <= first + tmo ==> !Ready(answer(n))
    }

    /** At45dWaitReady: a timeout is reported; a query that fails passes for a chip that is ready. */
    method WaitReady(tmo: nat) returns (rc: int)
      modifies this`asked, this`failures
      ensures rc == if TimesOut(old(asked), tmo) then -1 else 0
      ensures failures == old(failures) - rc && old(asked) < asked && (Smooth() ==> rc == 0)
      // In numbers: an answer from 0x80 on ends the wait, as does a query that fails.
      ensures
        && tmo == 1000
        && (forall n :: old(asked) <= n <= old(asked) + 1000 ==> answer(n).Reads? && answer(n).sr < 0x80)
        ==> rc == -1
      ensures
        (exists n :: old(asked) <= n <= old(asked) + tmo && (answer(n).Failed? || answer(n).sr >= 0x80)) ==>
        rc == 0
      ensures rc == 0 ==> Ready(answer(asked - 1))
    {
      var left := tmo;
      while true
        invariant asked + left == old(asked) + tmo && failures == old(failures)
        invariant forall n :: old(asked) <= n < asked ==> !Ready(answer(n))
        decreases left
      {
        asked := asked + 1;
        if Ready(answer(asked - 1)) {
          return 0;
        }
        if left == 0 {
          failures := failures + 1;
          return -1;
        }
        left := left - 1;
      }
    }

    /** Reads on across page boundaries.  Fails exactly for a page that is not there and with the bus. */
    method PageRead(pgn: nat, len: nat) returns (rc: int, data: seq<byte>)
      requires Valid() && (pgn < pages ==> PageStart(pgn, psize) + len <= |mem|)
      modifies this`failures, this`tried
      ensures old(failures) <= failures && (Smooth() ==> failures == old(failures))
      ensures rc == if pgn < pages && failures == old(failures) then len else -1
      ensures rc == len ==> pgn < pages && data == mem[PageStart(pgn, psize)..PageStart(pgn, psize) + len]
    {
      if pgn >= pages {
        return -1, [];
      }
      rc := Command();
      if rc != 0 {
        return -1, [];
      }
      return len, mem[PageStart(pgn, psize)..PageStart(pgn, psize) + len];
    }

    /** Loads the chip's buffer, flashes it to one page and waits.  Fails before or after the page is
        programmed. */
    method ProgramPage(p: nat, chunk: seq<byte>) returns (ok: bool, ghost done: bool)
      requires Valid() && p < pages && |chunk| <= psize && PageStart(p, psize) + psize <= |mem|
      modifies this`mem, this`buf1, this`programmed, this`failures, this`tried, this`asked
      ensures Valid() && (ok ==> done) && old(failures) <= failures && (ok <==> failures == old(failures))
      ensures (Smooth() ==> ok) && old(asked) <= asked && (ok ==> old(asked) < asked)
      ensures done ==> |chunk| <= |buf1| && buf1[..|chunk|] == chunk
      ensures if done then mem == Overwrite(old(mem), PageStart(p, psize), buf1) && programmed == old(programmed) + [p]
        else mem == old(mem) && programmed == old(programmed)
    {
      done := false;
      var rc := Command();
      if rc != 0 {
        return false, false;
      }
      buf1 := chunk + buf1[|chunk|..];
      rc := Command();
      if rc != 0 {
        return false, false;
      }
      mem := Overwrite(mem, PageStart(p, psize), buf1);
      programmed := programmed + [p];
      done := true;
      rc := WaitReady(AT45_WRITE_POLLS);
      ok := rc == 0;
    }

    /** Programs `data` from page `pgn` on.  `flashed` bytes have reached the flash, followed by `tail`
        where the last page is not filled; `rc` counts the bytes known to be there. */
    method PageWrite(pgn: nat, data: seq<byte>) returns (rc: int, ghost flashed: nat, ghost tail: seq<byte>)
      requires Valid() && pgn < pages
      modifies this`mem, this`buf1, this`programmed, this`failures, this`tried, this`asked
      ensures Valid() && flashed <= |data| && rc <= flashed && (flashed < |data| ==> tail == [])
      ensures PageStart(pgn, psize) + flashed + |tail| <= |mem|
      ensures mem == Overwrite(old(mem), PageStart(pgn, psize), data[..flashed] + tail)
      // Everything is written exactly if no failure is reported, the last page permitting.
      ensures old(failures) <= failures && (failures != old(failures) ==> data != [] && rc < |data|)
      ensures (Smooth() ==> failures == old(failures)) && old(asked) <= asked && (rc > 0 ==> old(asked) < asked)
      ensures failures == old(failures) && PageStart(pgn, psize) + |data| <= |mem| ==> rc == |data|
      ensures |data| == psize ==> tail == [] && (flashed == 0 || flashed == psize)
      ensures |data| == psize ==> programmed == old(programmed) + (if flashed == 0 then [] else [pgn])
    {
      hide Overwrite, PageStart, At45d.Smooth;
      ghost var mem0 := mem;
      flashed, tail := 0, [];
      PageFits(pgn, pages, psize);
      Overwriting(mem, PageStart(pgn, psize));
      assert data[..0] + [] == [];
      if data == [] {
        return 0, 0, [];
      }
      rc := -1;
      var dp, p, step := 0, pgn, psize;
      while dp < |data|
        invariant Valid() && 0 <= dp <= |data| && flashed == dp && p <= pages && pgn <= p
        invariant
          dp < |data| ==> p < pages && tail == [] && step == psize && PageStart(pgn, psize) + dp == PageStart(p, psize)
        invariant (rc == if dp == 0 then -1 else dp) && (dp == 0 ==> p == pgn)
        invariant PageStart(pgn, psize) + dp + |tail| <= |mem|
        invariant mem == Overwrite(mem0, PageStart(pgn, psize), data[..dp] + tail)
        invariant failures == old(failures) && old(asked) <= asked && (dp > 0 ==> old(asked) < asked)
        invariant |data| == psize ==> dp == 0 || dp == psize
        invariant |data| == psize ==> tail == [] && programmed == old(programmed) + (if dp == 0 then [] else [pgn])
        decreases |data| - dp
      {
        if step > |data| - dp {
          step := |data| - dp;
        }
        PageFits(p, pages, psize);
        var ok, done := ProgramPage(p, data[dp..dp + step]);
        if done {
          flashed, tail := dp + step, buf1[step..];
          PageStep(mem0, PageStart(pgn, psize), data, dp, step, buf1);
        }
        if !ok {
          break;
        }
        if rc < 0 {
          rc := 0;
        }
        rc := rc + step;
        dp := dp + step;
        p := p + 1;
        if p >= pages {
          break;
        }
      }
    }

    /** Reads the whole configuration area and copies the requested part.  Fails exactly if that part is not
        inside the area, or a failure is reported below. */
    method ConfigRead(pos: nat, len: nat) returns (rc: int, data: seq<byte>)
      requires Valid()
      modifies this`failures, this`tried
      ensures old(failures) <= failures && (Smooth() ==> failures == old(failures))
      ensures rc == if pos + len <= csize && failures == old(failures) then 0 else -1
      ensures rc == 0 ==> data == mem[PageStart(cpage, psize) + pos..PageStart(cpage, psize) + pos + len]
    {
      data := [];
      rc := -1;
      if csize >= pos + len {
        var ok := Malloc();
        if ok {
          var n, buff := PageRead(cpage, csize);
          if n == csize {
            SliceOfSlice(mem, PageStart(cpage, psize), csize, pos, len);
            data := buff[pos..pos + len];
            rc := 0;
          }
        }
      }
    }

    /** One round of ConfigWrite: replaces part of a page, unless it already holds these bytes. */
    method UpdatePage(page: nat, offset: nat, chunk: seq<byte>) returns (rc: int)
      requires Valid() && page < pages && offset + |chunk| <= psize
      requires PageStart(page, psize) + psize <= |mem|
      modifies this`mem, this`buf1, this`programmed, this`failures, this`tried, this`asked
      ensures Valid() && old(failures) <= failures && rc == (if failures == old(failures) then 0 else -1)
      ensures (Smooth() ==> rc == 0) && old(asked) <= asked
      ensures rc == 0 && programmed != old(programmed) ==> old(asked) < asked
      ensures mem == Overwrite(old(mem), PageStart(page, psize) + offset, chunk) || (rc == -1 && mem == old(mem))
      ensures programmed == old(programmed) ==> mem == old(mem)
      ensures programmed == old(programmed) || (programmed == old(programmed) + [page]
        && old(mem)[PageStart(page, psize) + offset..PageStart(page, psize) + offset + |chunk|] != chunk)
    {
      hide Overwrite, PageStart;
      var base := PageStart(page, psize);
      var n, pbuff := PageRead(page, psize);
      if n != psize {
        return -1;
      }
      SliceOfSlice(mem, base, psize, offset, |chunk|);
      if pbuff[offset..offset + |chunk|] != chunk {
        PatchPage(mem, base, psize, offset, chunk);
        pbuff := pbuff[..offset] + chunk + pbuff[offset + |chunk|..];
        ghost var flashed, tail;
        n, flashed, tail := PageWrite(page, pbuff);
        assert pbuff[..psize] + [] == pbuff && pbuff[..0] + [] == [];
        Overwriting(old(mem), base);
        return if n == psize then 0 else -1;
      }
      OverwriteSame(mem, base + offset, chunk);
      return 0;
    }

    /** Stores configuration data, rewriting only pages that change.  Fails exactly for data that is empty or not
        inside the area, and if a failure is reported below. */
    method ConfigWrite(pos: nat, data: seq<byte>) returns (rc: int)
      requires Valid()
      modifies this`mem, this`buf1, this`programmed, this`failures, this`tried, this`asked
      ensures Valid() && old(failures) <= failures
      ensures (Smooth() ==> failures == old(failures)) && old(asked) <= asked
      ensures rc == 0 && programmed != old(programmed) ==> old(asked) < asked
      ensures programmed == old(programmed) ==> mem == old(mem)
      ensures rc == if data != [] && pos + |data| <= csize && failures == old(failures) then 0 else -1
      ensures data == [] || pos + |data| > csize ==> rc == -1 && mem == old(mem) && programmed == old(programmed)
      ensures rc == 0 ==> pos + |data| <= csize && mem == Overwrite(old(mem), PageStart(cpage, psize) + pos, data)
      ensures pos + |data| <= csize ==> PartlyWritten(old(mem), mem, PageStart(cpage, psize) + pos, data)
      ensures
        pos + |data| <= csize ==>
        OnlyNeeded(old(mem), psize, PageStart(cpage, psize) + pos, data, old(programmed), programmed)
    {
      hide Overwrite, PageStart, OnlyNeeded, PartlyWritten, Written, At45d.Smooth;
      rc := -1;
      var ok := false;
      if data != [] && csize >= pos + |data| {
        ok := Malloc();
      }
      if ok {
        ghost var mem0, start, progs := mem, PageStart(cpage, psize) + pos, programmed;
        var page: nat, offset: nat := cpage + pos / psize, pos % psize;
        PageOf(cpage, pos, psize);
        var remaining: nat := |data|;
        var wsize := if offset + |data| > psize then psize - offset else psize;
        if remaining < wsize {
          wsize := remaining;
        }
        var done: nat := 0;
        WrittenStart(mem, start, data, psize, programmed);
        while remaining > 0
          invariant Valid() && done + remaining == |data|
          invariant remaining > 0 ==> offset < psize && PageStart(page, psize) + offset == start + done
          invariant remaining > 0 ==> wsize == if remaining < psize - offset then remaining else psize - offset
          invariant progs <= programmed && (programmed == progs ==> mem == mem0)
          invariant old(asked) <= asked && (programmed != progs ==> old(asked) < asked)
          invariant failures == old(failures) && rc == if done == 0 then -1 else 0
          invariant Written(mem0, mem, start, data, done, psize, progs, programmed)
          decreases remaining
        {
          PageInside(page, offset, pages, psize);
          ghost var mem1, prog1 := mem, programmed;
          rc := UpdatePage(page, offset, data[done..done + wsize]);
          WrittenStep(mem0, mem1, mem, start, data, done, wsize, psize, page, offset, progs, prog1, programmed);
          if rc != 0 {
            return -1;
          }
          done := done + wsize;
          remaining := remaining - wsize;
          offset := 0;
          page := page + 1;
          wsize := if remaining > psize then psize else remaining;
        }
        WrittenAll(mem0, mem, start, data, psize, progs, programmed);
      } else if csize >= pos + |data| {
        NotWritten(mem, PageStart(cpage, psize) + pos, data, psize, programmed);
      }
    }

    /** Writing and then reading the same range: what is read is what was written, and both succeed unless
        a failure is reported below. */
    method WriteAndRead(pos: nat, data: seq<byte>) returns (written: int, read: int, back: seq<byte>)
      requires Valid()
      modifies this`mem, this`buf1, this`programmed, this`failures, this`tried, this`asked
      ensures Valid() && (written == 0 && read == 0 ==> back == data)
      ensures data != [] && pos + |data| <= csize && failures == old(failures) ==> written == 0 && read == 0
    {
      hide PageStart, Overwrite, OnlyNeeded, PartlyWritten;
      written := ConfigWrite(pos, data);
      if written == 0 {
        OverwriteRead(old(mem), PageStart(cpage, psize) + pos, data);
      }
      read, back := ConfigRead(pos, |data|);
    }
  }

  /** A failure nobody notices: a chip of two pages on a bus that fails at every status query.  A byte is stored
      with success, and no answer has ever said that the page was finished. */
  method UnnoticedFailure() returns (d: At45d, rc: int)
    ensures d.Valid() && rc == 0 && d.programmed != [] && d.asked > 0 && d.failures == 0
    ensures forall n :: d.answer(n) == Failed
    ensures d.mem == [0xFF, 0xFF, 0xFF, 7]
  {
    d := new At45d(2, 2, 1, 2, [0xFF, 0xFF, 0xFF, 0xFF], [0, 0], _ => false, _ => Failed);
    rc := d.ConfigWrite(1, [7]);
    assert d.mem[3] == 7;
  }

  /** Every page programmed since `before` was in need of it. */
  ghost predicate OnlyNeeded(mem: seq<byte>, psize: nat, pos: nat, data: seq<byte>, before: seq<nat>, after: seq<nat>)
    requires pos + |data| <= |mem|
  {
    before <= after && forall k :: |before| <= k < |after| ==> NeedsPage(mem, psize, pos, data, after[k])
  }

  /** ConfigWrite with `done` bytes stored. */
  ghost predicate Written(mem0: seq<byte>, mem: seq<byte>, pos: nat, data: seq<byte>, done: nat, psize: nat,
      before: seq<nat>, after: seq<nat>) {
    && pos + |data| <= |mem0| && done <= |data|
    && mem == Overwrite(mem0, pos, data[..done])
    && OnlyNeeded(mem0, psize, pos, data, before, after)
  }

  /** Storing what is already there programs nothing. */
  lemma NothingToDo(mem: seq<byte>, psize: nat, pos: nat, data: seq<byte>, before: seq<nat>, after: seq<nat>)
    requires pos + |data| <= |mem| && mem[pos..pos + |data|] == data
    requires OnlyNeeded(mem, psize, pos, data, before, after)
    ensures after == before
  {
    if |before| < |after| {
      NotNeeded(mem, psize, pos, data, after[|before|]);
    }
  }

  lemma NotNeeded(mem: seq<byte>, psize: nat, pos: nat, data: seq<byte>, p: nat)
    requires pos + |data| <= |mem| && mem[pos..pos + |data|] == data
    ensures !NeedsPage(mem, psize, pos, data, p)
  {
    forall i | 0 <= i < |data| ensures mem[pos + i] == data[i] {
      assert mem[pos..pos + |data|][i] == data[i];
    }
  }

  lemma WrittenStart(mem: seq<byte>, pos: nat, data: seq<byte>, psize: nat, progs: seq<nat>)
    requires pos + |data| <= |mem|
    ensures Written(mem, mem, pos, data, 0, psize, progs, progs)
  {
    assert data[..0] == [];
    Overwriting(mem, pos);
  }

  lemma NotWritten(mem: seq<byte>, pos: nat, data: seq<byte>, psize: nat, progs: seq<nat>)
    requires pos + |data| <= |mem|
    ensures PartlyWritten(mem, mem, pos, data) && OnlyNeeded(mem, psize, pos, data, progs, progs)
  {
  }

  lemma WrittenAll(mem0: seq<byte>, mem: seq<byte>, pos: nat, data: seq<byte>, psize: nat, before: seq<nat>,
      after: seq<nat>)
    requires Written(mem0, mem, pos, data, |data|, psize, before, after)
    ensures mem == Overwrite(mem0, pos, data) && PartlyWritten(mem0, mem, pos, data)
    ensures OnlyNeeded(mem0, psize, pos, data, before, after)
  {
    assert data[..|data|] == data;
  }

  lemma WrittenStep(mem0: seq<byte>, mem1: seq<byte>, mem2: seq<byte>, pos: nat, data: seq<byte>, done: nat, wsize: nat,
      psize: nat, page: nat, offset: nat, before: seq<nat>, prog1: seq<nat>, prog2: seq<nat>)
    requires Written(mem0, mem1, pos, data, done, psize, before, prog1)
    requires done + wsize <= |data| && PageStart(page, psize) + offset == pos + done && 0 < wsize
    requires offset + wsize <= psize
    requires mem2 == mem1 || mem2 == Overwrite(mem1, pos + done, data[done..done + wsize])
    requires
      prog2 == prog1 || (prog2 == prog1 + [page] && mem1[pos + done..pos + done + wsize] != data[done..done + wsize])
    ensures
      mem2 == Overwrite(mem1, pos + done, data[done..done + wsize]) ==>
      Written(mem0, mem2, pos, data, done + wsize, psize, before, prog2)
    ensures PartlyWritten(mem0, mem2, pos, data) && OnlyNeeded(mem0, psize, pos, data, before, prog2)
  {
    hide NeedsPage, Overwrite, PartlyWritten;
    UpdateStep(mem0, pos, data, done, wsize, psize, page, offset);
    PartlyPrefix(mem0, pos, data, done);
    PartlyPrefix(mem0, pos, data, done + wsize);
  }

  lemma SliceOfSlice(mem: seq<byte>, base: nat, size: nat, offset: nat, len: nat)
    requires base + size <= |mem| && offset + len <= size
    ensures mem[base..base + size][offset..offset + len] == mem[base + offset..base + offset + len]
  {
    var a, b := mem[base..base + size][offset..offset + len], mem[base + offset..base + offset + len];
    forall i | 0 <= i < len ensures a[i] == b[i] {
      assert a[i] == mem[base..base + size][offset + i];
    }
  }

  /** Rewriting a page with some of its bytes replaced replaces just those bytes. */
  lemma PatchPage(mem: seq<byte>, base: nat, psize: nat, offset: nat, chunk: seq<byte>)
    requires base + psize <= |mem| && offset + |chunk| <= psize
    ensures var p := mem[base..base + psize];
      |p[..offset] + chunk + p[offset + |chunk|..]| == psize
      && Overwrite(mem, base, p[..offset] + chunk + p[offset + |chunk|..]) == Overwrite(mem, base + offset, chunk)
  {
    var p := mem[base..base + psize];
    var q := p[..offset] + chunk + p[offset + |chunk|..];
    assert mem[..base + offset] == mem[..base] + p[..offset];
    assert mem[base + offset + |chunk|..] == p[offset + |chunk|..] + mem[base + psize..];
  }

  /** Where a position in the area lies in the flash. */
  lemma PageOf(cpage: nat, pos: nat, psize: nat)
    requires psize > 0
    ensures PageStart(cpage + pos / psize, psize) + pos % psize == PageStart(cpage, psize) + pos
    ensures 0 <= pos % psize < psize && pos / psize >= 0
  {
  }

  lemma LaterPage(p: nat, q: nat, psize: nat)
    requires p >= q
    ensures PageStart(p, psize) >= PageStart(q, psize)
  {
  }

  lemma PageInside(page: nat, offset: nat, pages: nat, psize: nat)
    requires PageStart(page, psize) + offset < PageStart(pages, psize)
    ensures page < pages && PageStart(page, psize) + psize <= PageStart(pages, psize)
    ensures PageStart(page + 1, psize) == PageStart(page, psize) + psize
  {
    if page >= pages {
      LaterPage(page, pages, psize);
    }
    PageFits(page, pages, psize);
  }

  lemma UpdateStep(mem0: seq<byte>, start: nat, data: seq<byte>, done: nat, wsize: nat, psize: nat, page: nat,
      offset: nat)
    requires start + |data| <= |mem0| && done + wsize <= |data| && PageStart(page, psize) + offset == start + done
    requires 0 < wsize && offset + wsize <= psize && psize > 0
    ensures var mem1 := Overwrite(mem0, start, data[..done]); var chunk := data[done..done + wsize];
      && Overwrite(mem1, start + done, chunk) == Overwrite(mem0, start, data[..done + wsize])
      && (mem1[start + done..start + done + |chunk|] != chunk ==> NeedsPage(mem0, psize, start, data, page))
  {
    var mem1, chunk := Overwrite(mem0, start, data[..done]), data[done..done + wsize];
    OverwriteAppend(mem0, start, data[..done], chunk);
    assert data[..done] + chunk == data[..done + wsize];
    if mem1[start + done..start + done + |chunk|] != chunk {
      var k :| 0 <= k < |chunk| && mem1[start + done..start + done + |chunk|][k] != chunk[k];
      assert mem1[start + done + k] == mem0[start + done + k];
      assert (page + 1) * psize == page * psize + psize;
      var i := done + k;
      assert page * psize <= start + i < (page + 1) * psize && mem0[start + i] != data[i];
    }
  }

  lemma PartlyPrefix(mem: seq<byte>, pos: nat, data: seq<byte>, n: nat)
    requires pos + |data| <= |mem| && n <= |data|
    ensures PartlyWritten(mem, Overwrite(mem, pos, data[..n]), pos, data)
  {
  }

  /** A page programmed behind what is there already. */
  lemma PageStep(mem: seq<byte>, base: nat, data: seq<byte>, dp: nat, step: nat, page: seq<byte>)
    requires dp + step <= |data| && step <= |page| && page[..step] == data[dp..dp + step]
    requires base + dp + |page| <= |mem|
    ensures data[..dp] + [] == data[..dp]
    ensures |data[..dp]| == dp && |data[..dp + step] + page[step..]| == dp + |page|
    ensures
      Overwrite(Overwrite(mem, base, data[..dp]), base + dp, page)
        == Overwrite(mem, base, data[..dp + step] + page[step..])
  {
    OverwriteAppend(mem, base, data[..dp], page);
    assert page == data[dp..dp + step] + page[step..];
    assert data[..dp] + page == data[..dp + step] + page[step..];
  }

  lemma PageFits(p: nat, pages: nat, psize: nat)
    requires p < pages
    ensures PageStart(p, psize) + psize <= PageStart(pages, psize)
    ensures PageStart(p + 1, psize) == PageStart(p, psize) + psize
  {
    assert (p + 1) * psize <= pages * psize;
  }

  lemma Overwriting(mem: seq<byte>, pos: nat)
    requires pos <= |mem|
    ensures Overwrite(mem, pos, []) == mem
  {
  }
}
