/** The environment functions as the source runs them: a doubly linked list of nodes, relinked in place
    (crt/setenv.c, crt/environ.c, crt/getenv.c). */
module EnvList {
  import opened NvMem
  import opened EnvModel
  import opened EnvStore
  import opened EnvRuns

  /** NUTENVIRONMENT */
  class EnvNode {
    const name: Text
    var value: Text
    var next: EnvNode?
    var prev: EnvNode?

    constructor (name: Text, value: Text)
      ensures this.name == name && this.value == value && next == null && prev == null
    {
      this.name, this.value := name, value;
      next, prev := null, null;
    }
  }

  ghost function Listed(nodes: seq<EnvNode>): (l: seq<Entry>)
    reads nodes
    ensures |l| == |nodes| && forall i :: 0 <= i < |l| ==> l[i] == Entry(nodes[i].name, nodes[i].value)
  {
    if nodes == [] then [] else [Entry(nodes[0].name, nodes[0].value)] + Listed(nodes[1..])
  }

  ghost function At(nodes: seq<EnvNode>, i: int): EnvNode? {
    if 0 <= i < |nodes| then nodes[i] else null
  }

  ghost predicate Distinct(nodes: seq<EnvNode>) {
    forall i, j :: 0 <= i < j < |nodes| ==> nodes[i] != nodes[j]
  }

  ghost predicate LinkedAt(nodes: seq<EnvNode>, i: nat)
    requires i < |nodes|
    reads nodes[i]
  {
    nodes[i].next == At(nodes, i + 1) && nodes[i].prev == At(nodes, i - 1)
  }

  /** Every node points to its neighbours. */
  ghost predicate Linked(nodes: seq<EnvNode>)
    reads nodes
  {
    forall i :: 0 <= i < |nodes| ==> LinkedAt(nodes, i)
  }

  lemma DistinctInsert(nodes: seq<EnvNode>, i: nat, e: EnvNode)
    requires Distinct(nodes) && i <= |nodes| && e !in nodes
    ensures Distinct(nodes[..i] + [e] + nodes[i..])
  {
    var m := nodes[..i] + [e] + nodes[i..];
    forall a, b | 0 <= a < b < |m| ensures m[a] != m[b] {
      if b == i {
        assert m[a] == nodes[a];
      } else if a == i {
        assert m[b] == nodes[b - 1];
      }
    }
  }

  lemma Apart(nodes: seq<EnvNode>, i: nat, j: nat)
    requires Distinct(nodes) && i < |nodes| && j < |nodes| && i != j
    ensures nodes[i] != nodes[j]
  {
  }

  lemma DistinctRemove(nodes: seq<EnvNode>, k: nat)
    requires Distinct(nodes) && k < |nodes|
    ensures Distinct(nodes[..k] + nodes[k + 1..])
  {
  }

  /** The list without reference to its nodes' places. */
  lemma SameListed(nodes: seq<EnvNode>, l: seq<Entry>)
    requires |nodes| == |l| && forall i :: 0 <= i < |l| ==> l[i] == Entry(nodes[i].name, nodes[i].value)
    ensures Listed(nodes) == l
  {
  }

  lemma DecodeStep(nv: seq<byte>, addr: nat, siz: nat, before: seq<Entry>)
    requires addr <= |nv| && ReadString(nv, addr, siz).len > 0
    ensures var n := ReadString(nv, addr, siz); var v := ReadString(nv, n.addr, siz);
      addr < v.addr <= |nv|
        && before + Decode(nv, addr, siz).0 == before + [Entry(n.text, v.text)] + Decode(nv, v.addr, siz).0
  {
    hide ReadFrom;
  }

  lemma DecodeEnd(nv: seq<byte>, addr: nat, siz: nat, before: seq<Entry>)
    requires addr <= |nv| && ReadString(nv, addr, siz).len == 0
    ensures before + Decode(nv, addr, siz).0 == before
  {
  }

  lemma InsideStep(nv: seq<byte>, addr: nat, siz: nat)
    requires addr <= |nv| && ReadString(nv, addr, siz).len > 0
    ensures var n := ReadString(nv, addr, siz); var v := ReadString(nv, n.addr, siz);
      v.addr <= |nv| && (StaysInside(nv, addr, siz) <==>
        |n.text| <= siz && |v.text| <= siz && |v.text| <= v.len && StaysInside(nv, v.addr, siz))
  {
    hide ReadFrom;
  }

  lemma InsideFirst(nv: seq<byte>, addr: nat, siz: nat)
    requires addr <= |nv| && StaysInside(nv, addr, siz)
    ensures |ReadString(nv, addr, siz).text| <= siz
  {
  }

  lemma InsideEnd(nv: seq<byte>, addr: nat, siz: nat)
    requires addr <= |nv| && ReadString(nv, addr, siz).len == 0
    ensures StaysInside(nv, addr, siz) <==> |ReadString(nv, addr, siz).text| <= siz
  {
  }

  lemma SetEnvCases(l: seq<Entry>, name: Text, value: Text, force: bool)
    ensures var k, p, m := Find(l, name), Place(l, name), EnvModel.SetEnv(l, name, value, force);
      && (k == |l| ==> m == (l[..p] + [Entry(name, [])] + l[p..])[p := Entry(name, value)] && m != l)
      && (k < |l| ==> m == if force then l[k := Entry(name, value)] else l)
      && (k < |l| ==> (m == l <==> !force || l[k].value == value))
  {
    var k := Find(l, name);
    if k < |l| && force {
      assert EnvModel.SetEnv(l, name, value, force)[k].value == value;
    }
  }

  // ----- Saving piece by piece

  /** Encode without the terminator of the list. */
  function Packed(l: seq<Entry>): seq<byte> {
    if l == [] then [] else Packed(l[..|l| - 1]) + l[|l| - 1].name + [0] + l[|l| - 1].value + [0]
  }

  lemma {:induction false} PackedFirst(l: seq<Entry>)
    requires l != []
    ensures Packed(l) == l[0].name + [0] + l[0].value + [0] + Packed(l[1..])
    decreases |l|
  {
    if |l| > 1 {
      var m := l[..|l| - 1];
      PackedFirst(m);
      assert m[1..] == l[1..][..|l[1..]| - 1];
    }
  }

  lemma {:induction false} EncodeIsPacked(l: seq<Entry>)
    ensures Encode(l) == Packed(l) + [0]
    decreases |l|
  {
    if l != [] {
      PackedFirst(l);
      EncodeIsPacked(l[1..]);
    }
  }

  /** The image is the magic word, the variables up to one of them, that variable and more. */
  lemma ImageParts(l: seq<Entry>, i: nat)
    requires i < |l|
    ensures MAGIC + Packed(l[..i]) + (l[i].name + [0]) + (l[i].value + [0]) == MAGIC + Packed(l[..i + 1])
    ensures MAGIC + Packed(l[..i + 1]) < Image(l)
  {
    assert l[..i + 1][..i] == l[..i];
    PackedPrefix(l, i + 1);
    EncodeIsPacked(l);
  }

  lemma {:induction false} PackedPrefix(l: seq<Entry>, i: nat)
    requires i <= |l|
    ensures Packed(l[..i]) <= Packed(l)
    decreases |l|
  {
    if i < |l| {
      var m := l[..|l| - 1];
      PackedPrefix(m, i);
      assert m[..i] == l[..i];
    } else {
      assert l[..i] == l;
    }
  }

  /** Saving stopped in the middle of the image. */
  ghost predicate PartlySaved(nv: seq<byte>, l: seq<Entry>, nv': seq<byte>) {
    exists image: seq<byte> :: image < Image(l) && ENVIRON_EE_OFFSET + |image| <= |nv|
      && nv' == Overwrite(nv, ENVIRON_EE_OFFSET, image)
  }

  /** What save_env returns and leaves behind.  If not even the magic word can be stored it reports
      success. */
  ghost predicate SaveResult(nv: seq<byte>, l: seq<Entry>, nv': seq<byte>, rc: int) {
    if l == [] || ENVIRON_EE_OFFSET + |MAGIC| > |nv| then rc == 0 && nv' == nv
    else if Fits(nv, l) then rc == 0 && nv' == Saved(nv, l)
    else rc == -1 && PartlySaved(nv, l, nv')
  }

  lemma PackedNone(l: seq<Entry>)
    ensures MAGIC + Packed(l[..0]) == MAGIC
  {
  }

  lemma AllPacked(l: seq<Entry>)
    ensures MAGIC + Packed(l[..|l|]) + [0] == Image(l)
  {
    assert l[..|l|] == l;
    EncodeIsPacked(l);
  }

  /** A piece of variable `i` could not be stored. */
  lemma Stopped(nv: seq<byte>, l: seq<Entry>, done: seq<byte>, i: nat, nv': seq<byte>)
    requires i < |l| && ENVIRON_EE_OFFSET + |done| <= |nv| && nv' == Overwrite(nv, ENVIRON_EE_OFFSET, done)
    requires |MAGIC| <= |done| && done <= MAGIC + Packed(l[..i + 1])
    requires !(ENVIRON_EE_OFFSET + |MAGIC + Packed(l[..i + 1])| <= |nv|)
    ensures SaveResult(nv, l, nv', -1)
  {
    hide Image, Packed, Overwrite;
    ImageParts(l, i);
    assert done < Image(l);
  }

  lemma Finished(nv: seq<byte>, l: seq<Entry>, done: seq<byte>, nv': seq<byte>, rc: int)
    requires l != [] && ENVIRON_EE_OFFSET + |done| <= |nv| && done + [0] == Image(l) && |MAGIC| <= |done|
    requires if Fits(nv, l) then rc == 0 && nv' == Overwrite(nv, ENVIRON_EE_OFFSET, done + [0])
             else rc == -1 && nv' == Overwrite(nv, ENVIRON_EE_OFFSET, done)
    ensures SaveResult(nv, l, nv', rc)
  {
    hide Image, Overwrite;
    assert done < Image(l);
  }

  /** Where the memory is large enough, an operation is a step of EnvRuns. */
  lemma IsStep(s: State, op: Op, s': State, rc: int)
    requires op != Restart && s'.list == Edited(View(s), op)
    requires if s'.list == View(s) then rc == 0 && s'.nv == s.nv else SaveResult(s.nv, s'.list, s'.nv, rc)
    ensures Storable(s, op) ==> rc == 0 && s' == Step(s, op)
  {
    hide View, Edited, Saved, PartlySaved, Encode;
  }

  class Environ {
    var environ: EnvNode?
    /** Contents of the non-volatile memory. */
    var nv: seq<byte>
    ghost var nodes: seq<EnvNode>
    /** A string has been written beyond the memory allocated for it. */
    ghost var overrun: bool

    ghost predicate Valid()
      reads this`environ, this`nodes, nodes
    {
      Distinct(nodes) && Linked(nodes) && environ == At(nodes, 0)
    }

    ghost function Contents(): seq<Entry>
      reads this`nodes, nodes
    {
      Listed(nodes)
    }

    ghost function Current(): State
      reads this`nv, this`nodes, nodes
    {
      State(Contents(), nv)
    }

    /** After a restart. */
    constructor (nv: seq<byte>)
      ensures Valid() && Contents() == [] && this.nv == nv && !overrun
    {
      environ, this.nv, nodes, overrun := null, nv, [], false;
    }

    /** NutNvMemSave: fails if the memory ends too early. */
    method Store(addr: nat, data: seq<byte>) returns (rc: int)
      modifies this`nv
      ensures
        if addr + |data| <= |old(nv)| then
          rc == 0 && nv == Overwrite(old(nv), addr, data)
        else
          rc == -1 && nv == old(nv)
    {
      if addr + |data| <= |nv| {
        nv := Overwrite(nv, addr, data);
        return 0;
      }
      return -1;
    }

    /** read_string, with a buffer of `room` bytes or, for the first pass, none. */
    method ReadText(addr: nat, siz: nat, ghost room: nat) returns (rc: nat, next: nat, buf: Text)
      modifies this`overrun
      ensures ReadString(nv, addr, siz) == Read(rc, next, buf)
      // The characters and their terminator are written.
      ensures overrun == (old(overrun) || (room > 0 && |buf| + 1 > room))
    {
      rc, next, buf := 0, addr, [];
      while rc <= siz
        invariant rc <= siz + 1
        invariant var r := ReadFrom(nv, next, siz, rc); ReadString(nv, addr, siz) == Read(r.len, r.addr, buf + r.text)
        invariant overrun == (old(overrun) || (room > 0 && |buf| > room))
      {
        if next >= |nv| {
          rc := 0;
          break;
        }
        var ch := nv[next];
        next := next + 1;
        if ch == 0 {
          break;
        }
        overrun := overrun || (room > 0 && |buf| >= room);
        buf := buf + [ch];
        rc := rc + 1;
      }
      overrun := overrun || (room > 0 && |buf| >= room);
    }

    /** First pass over the stored list. */
    method MeasureStored(start: nat) returns (longest: nat)
      requires start <= |nv|
      modifies this`overrun
      ensures overrun == old(overrun)
      ensures longest == Measure(nv, start, 0).0
    {
      hide ReadFrom;
      longest := 0;
      var len, addr, buf := ReadText(start, MAX_ENVIRON_ITEM_SIZE, 0);
      ghost var from := start;
      while len > 0
        invariant from <= |nv| && overrun == old(overrun)
        invariant var n := ReadString(nv, from, MAX_ENVIRON_ITEM_SIZE); n.len == len && n.addr == addr
        invariant Measure(nv, from, longest).0 == Measure(nv, start, 0).0
        decreases |nv| - from
      {
        if len > longest {
          longest := len;
        }
        len, addr, buf := ReadText(addr, MAX_ENVIRON_ITEM_SIZE, 0);
        if len > longest {
          longest := len;
        }
        from := addr;
        len, addr, buf := ReadText(addr, MAX_ENVIRON_ITEM_SIZE, 0);
      }
    }

    /** Link a new node behind the last one, `prvp`. */
    method Append(envp: EnvNode, prvp: EnvNode?)
      requires Valid() && envp !in nodes && envp.next == null && envp.prev == null && prvp == At(nodes, |nodes| - 1)
      modifies this`environ, this`nodes, envp`next, envp`prev, nodes`next
      ensures Valid() && nodes == old(nodes) + [envp]
      ensures Contents() == old(Contents()) + [Entry(envp.name, envp.value)]
    {
      hide Listed, Distinct;
      DistinctInsert(nodes, |nodes|, envp);
      assert nodes[..|nodes|] + [envp] + nodes[|nodes|..] == nodes + [envp];
      ghost var l, was := Contents(), nodes;
      if prvp != null {
        prvp.next := envp;
        envp.prev := prvp;
      } else {
        environ := envp;
      }
      nodes := nodes + [envp];
      forall i | 0 <= i < |nodes| ensures LinkedAt(nodes, i) {
        if i < |was| {
          assert old(LinkedAt(was, i));
          if i < |was| - 1 {
            Apart(was, i, |was| - 1);
          }
        }
      }
      SameListed(nodes, l + [Entry(envp.name, envp.value)]);
    }

    /** One round of the second pass: the value, and the new node. */
    method ReadEntry(ghost from: nat, name: Text, start: nat, longest: nat, prvp: EnvNode?)
      returns (envp: EnvNode, addr: nat)
      requires Valid() && from <= |nv| && prvp == At(nodes, |nodes| - 1)
      requires var n := ReadString(nv, from, longest); n.len > 0 && n.addr == start && n.text == name
      requires |name| > longest ==> overrun
      modifies this`environ, this`nodes, this`overrun, nodes`next
      ensures Valid() && nodes == old(nodes) + [envp] && fresh(envp) && from < addr <= |nv|
      ensures
        old(Contents()) + Decode(nv, from, longest).0 == Contents() + Decode(nv, addr, longest).0
      ensures
        (overrun || !StaysInside(nv, addr, longest)) == (old(overrun) || !StaysInside(nv, from, longest))
    {
      hide ReadFrom, ReadString, Valid, Contents, Decode, StaysInside;
      var len, buf;
      InsideStep(nv, from, longest);
      len, addr, buf := ReadText(start, longest, longest + 1);
      // The copy of the value is as long as the length reported.
      overrun := overrun || |buf| > len;
      DecodeStep(nv, from, longest, Contents());
      envp := new EnvNode(name, buf);
      Append(envp, prvp);
    }

    /** Second pass: build the list. */
    method ReadStored(start: nat, longest: nat)
      requires Valid() && nodes == [] && start <= |nv|
      modifies this`environ, this`nodes, this`overrun
      ensures overrun == (old(overrun) || !StaysInside(nv, start, longest))
      ensures Valid() && (forall i :: 0 <= i < |nodes| ==> fresh(nodes[i]))
      ensures Contents() == Decode(nv, start, longest).0
    {
      hide ReadFrom, ReadString, Valid, Contents, Decode, StaysInside;
      Nothing();
      var len, addr, buf := ReadText(start, longest, longest + 1);
      ghost var from := start;
      var prvp: EnvNode? := null;
      if StaysInside(nv, start, longest) {
        InsideFirst(nv, start, longest);
      }
      while len > 0
        invariant Valid() && (forall i :: 0 <= i < |nodes| ==> fresh(nodes[i])) && prvp == At(nodes, |nodes| - 1)
        invariant from <= |nv| && ReadString(nv, from, longest) == Read(len, addr, buf)
        invariant Decode(nv, start, longest).0 == Contents() + Decode(nv, from, longest).0
        invariant (overrun || !StaysInside(nv, from, longest)) ==
          (old(overrun) || !StaysInside(nv, start, longest))
        invariant |buf| > longest ==> overrun
        decreases |nv| - from
      {
        prvp, addr := ReadEntry(from, buf, addr, longest, prvp);
        from := addr;
        len, addr, buf := ReadText(addr, longest, longest + 1);
        if StaysInside(nv, from, longest) {
          InsideFirst(nv, from, longest);
        }
      }
      DecodeEnd(nv, from, longest, Contents());
      InsideEnd(nv, from, longest);
    }

    /** findenv: the list is loaded if there is none. */
    method FindEnv(name: Text) returns (envp: EnvNode?)
      requires Valid()
      modifies this`environ, this`nodes, this`overrun
      ensures overrun == (old(overrun) || (old(environ) == null && !LoadsInside(nv)))
      ensures Valid() && Contents() == View(old(Current()))
      ensures old(nodes) != [] ==> nodes == old(nodes)
      ensures old(nodes) == [] ==> (forall i :: 0 <= i < |nodes| ==> fresh(nodes[i]))
      ensures envp == At(nodes, Find(Contents(), name))
    {
      hide Measure, Decode, StaysInside, Listed, Linked, Distinct, Find;
      if environ == null {
        Nothing();
        var addr := ENVIRON_EE_OFFSET;
        if addr + |MAGIC| <= |nv| && nv[addr..addr + |MAGIC|] == MAGIC {
          var longest := MeasureStored(addr + |MAGIC|);
          if longest > 0 {
            ReadStored(addr + |MAGIC|, longest);
          }
        }
      }
      envp := Search(name);
    }

    lemma Nothing()
      requires Valid() && (environ == null || nodes == [])
      ensures nodes == [] && Contents() == []
    {
    }

    method Search(name: Text) returns (envp: EnvNode?)
      requires Valid()
      ensures envp == At(nodes, Find(Contents(), name))
    {
      envp := environ;
      ghost var i := 0;
      while envp != null
        invariant 0 <= i <= |nodes| && envp == At(nodes, i)
        invariant forall j :: 0 <= j < i ==> nodes[j].name != name
        decreases |nodes| - i
      {
        if envp.name == name {
          break;
        }
        assert LinkedAt(nodes, i);
        envp := envp.next;
        i := i + 1;
      }
    }

    /** save_env */
    method SaveEnv() returns (rc: int)
      requires Valid()
      modifies this`nv
      ensures Valid() && Contents() == old(Contents()) && SaveResult(old(nv), Contents(), nv, rc)
    {
      hide Image, Saved, Linked, Distinct;
      rc := 0;
      if environ != null {
        var addr := ENVIRON_EE_OFFSET;
        var failed := Store(addr, MAGIC);
        if failed == 0 {
          rc := SaveList(addr + |MAGIC|, old(nv));
        }
      }
    }

    /** The image so far, and where it goes on. */
    ghost predicate Written(nv0: seq<byte>, addr: nat, done: seq<byte>)
      reads this`nv
    {
      addr == ENVIRON_EE_OFFSET + |done| <= |nv0| && nv == Overwrite(nv0, ENVIRON_EE_OFFSET, done)
    }

    /** One round of the loop of save_env. */
    method SaveEntry(start: nat, envp: EnvNode, ghost nv0: seq<byte>, ghost l: seq<Entry>, ghost i: nat)
      returns (rc: int, addr: nat)
      requires i < |l| && l[i] == Entry(envp.name, envp.value) && Written(nv0, start, MAGIC + Packed(l[..i]))
      modifies this`nv
      ensures rc == 0 || rc == -1
      ensures if rc == 0 then Written(nv0, addr, MAGIC + Packed(l[..i + 1])) else SaveResult(nv0, l, nv, rc)
    {
      hide Packed, Overwrite, SaveResult;
      addr := start;
      ghost var done := MAGIC + Packed(l[..i]);
      ImageParts(l, i);
      rc := Store(addr, envp.name + [0]);
      if rc != 0 {
        Stopped(nv0, l, done, i, nv);
        return;
      }
      OverwriteAppend(nv0, ENVIRON_EE_OFFSET, done, envp.name + [0]);
      done := done + (envp.name + [0]);
      addr := addr + |envp.name| + 1;
      rc := Store(addr, envp.value + [0]);
      if rc != 0 {
        Stopped(nv0, l, done, i, nv);
        return;
      }
      OverwriteAppend(nv0, ENVIRON_EE_OFFSET, done, envp.value + [0]);
      addr := addr + |envp.value| + 1;
    }

    /** The loop of save_env, entered when the magic word has been stored. */
    method SaveList(start: nat, ghost nv0: seq<byte>) returns (rc: int)
      requires Valid() && nodes != [] && start == ENVIRON_EE_OFFSET + |MAGIC| <= |nv0|
      requires nv == Overwrite(nv0, ENVIRON_EE_OFFSET, MAGIC)
      modifies this`nv
      ensures SaveResult(nv0, Contents(), nv, rc)
    {
      hide Packed, Overwrite, Distinct, SaveResult;
      ghost var l := Contents();
      rc := 0;
      var addr := start;
      var envp := environ;
      ghost var i := 0;
      assert MAGIC + Packed(l[..0]) == MAGIC by { PackedNone(l); }
      while envp != null
        invariant 0 <= i <= |nodes| && envp == At(nodes, i) && rc == 0 && l == Contents()
        invariant Written(nv0, addr, MAGIC + Packed(l[..i]))
        decreases |nodes| - i
      {
        rc, addr := SaveEntry(addr, envp, nv0, l, i);
        if rc != 0 {
          return;
        }
        assert LinkedAt(nodes, i);
        envp := envp.next;
        i := i + 1;
      }
      AllPacked(l);
      ghost var done := MAGIC + Packed(l[..i]);
      rc := Store(addr, [0]);
      if rc == 0 {
        OverwriteAppend(nv0, ENVIRON_EE_OFFSET, done, [0]);
      }
      Finished(nv0, l, done, nv, rc);
    }

    /** Put a new node before the first one its name comes before, or at the end. */
    method Insert(envp: EnvNode)
      requires Valid() && envp !in nodes && envp.next == null && envp.prev == null
      modifies this`environ, this`nodes, envp`next, envp`prev, nodes`next, nodes`prev
      ensures Valid()
      ensures var l, p := old(Contents()), Place(old(Contents()), envp.name);
        p < |nodes| && nodes[p] == envp && Contents() == l[..p] + [Entry(envp.name, envp.value)] + l[p..]
      // The first name that the new one precedes as strcmp compares them.
      ensures var l, p := old(Contents()), Place(old(Contents()), envp.name);
        && (p < |l| ==> Precedes(envp.name, l[p].name))
        && (forall i :: 0 <= i < p ==> !Precedes(envp.name, l[i].name))
    {
      hide Less, Listed, Distinct;
      var nxtp, prvp := environ, null;
      ghost var i, l := 0, Contents();
      while nxtp != null
        invariant 0 <= i <= |nodes| && nxtp == At(nodes, i) && prvp == At(nodes, i - 1)
        invariant forall j :: 0 <= j < i ==> !Less(envp.name, nodes[j].name)
        decreases |nodes| - i
      {
        if Less(envp.name, nxtp.name) {
          break;
        }
        assert LinkedAt(nodes, i);
        prvp := nxtp;
        nxtp := nxtp.next;
        i := i + 1;
      }
      PlaceIs(l, envp.name, i);
      forall j | 0 <= j < |l| ensures Less(envp.name, l[j].name) <==> Precedes(envp.name, l[j].name) {
        LessIs(envp.name, l[j].name);
      }
      if nxtp == null {
        Append(envp, prvp);
      } else {
        InsertBefore(envp, nxtp, i);
      }
      SameListed(nodes, l[..i] + [Entry(envp.name, envp.value)] + l[i..]);
    }

    /** Replace the value of one node. */
    method PutValue(envp: EnvNode, value: Text, ghost k: nat)
      requires Valid() && k < |nodes| && nodes[k] == envp
      modifies envp`value
      ensures Valid() && Contents() == old(Contents())[k := Entry(envp.name, value)]
    {
      hide Listed;
      ghost var l := Contents();
      envp.value := value;
      forall i | 0 <= i < |nodes| ensures LinkedAt(nodes, i) {
        assert old(LinkedAt(nodes, i));
      }
      SameListed(nodes, l[k := Entry(envp.name, value)]);
    }

    lemma PlaceIs(l: seq<Entry>, name: Text, i: nat)
      requires i <= |l| && (i < |l| ==> Less(name, l[i].name)) && forall j :: 0 <= j < i ==> !Less(name, l[j].name)
      ensures Place(l, name) == i
    {
    }

    method InsertBefore(envp: EnvNode, nxtp: EnvNode, ghost i: nat)
      requires Valid() && envp !in nodes && i < |nodes| && nxtp == nodes[i]
      modifies this`environ, this`nodes, envp`next, envp`prev, nodes`next, nodes`prev
      ensures Valid() && nodes == old(nodes[..i]) + [envp] + old(nodes[i..])
    {
      hide Distinct;
      DistinctInsert(nodes, i, envp);
      assert LinkedAt(nodes, i);
      ghost var was := nodes;
      if nxtp.prev != null {
        nxtp.prev.next := envp;
      } else {
        environ := envp;
      }
      envp.next := nxtp;
      envp.prev := nxtp.prev;
      nxtp.prev := envp;
      nodes := nodes[..i] + [envp] + nodes[i..];
      forall j | 0 <= j < |nodes| ensures LinkedAt(nodes, j) {
        if j != i {
          var k := if j < i then j else j - 1;
          assert nodes[j] == was[k] && old(LinkedAt(was, k));
          if k != i {
            Apart(was, k, i);
          }
          if i > 0 && k != i - 1 {
            Apart(was, k, i - 1);
          }
        }
      }
    }

    /** setenv */
    method SetEnv(name: Text, value: Text, force: bool) returns (rc: int)
      requires Valid()
      modifies this, nodes
      ensures overrun == (old(overrun) || (old(environ) == null && !LoadsInside(old(nv))))
      ensures Valid() && Contents() == EnvModel.SetEnv(View(old(Current())), name, value, force)
      ensures
        if Contents() == View(old(Current())) then rc == 0 && nv == old(nv) else SaveResult(old(nv), Contents(), nv, rc)
      ensures
        Storable(old(Current()), Set(name, value, force)) ==>
        rc == 0 && Current() == Step(old(Current()), Set(name, value, force))
    {
      hide View, SaveResult, Less, Find, Place, Valid, Listed, EnvModel.SetEnv, LoadsInside;
      var envp := FindEnv(name);
      ghost var l, k := Contents(), Find(Contents(), name);
      SetEnvCases(l, name, value, force);
      var found := envp != null;
      rc := 0;
      if !found {
        envp := new EnvNode(name, []);
        Insert(envp);
        k := Place(l, name);
      }
      if !found || (force && envp.value != value) {
        PutValue(envp, value, k);
        rc := SaveEnv();
      }
      IsStep(old(Current()), Set(name, value, force), Current(), rc);
    }

    /** unsetenv, in its POSIX form.  Whether the list could be saved is not reported. */
    method UnsetEnv(name: Text) returns (rc: int)
      requires Valid()
      modifies this, nodes
      ensures overrun == (old(overrun) || (old(environ) == null && !LoadsInside(old(nv))))
      ensures Valid() && Contents() == EnvModel.UnsetEnv(View(old(Current())), name)
      ensures rc == if Contents() == View(old(Current())) then -1 else 0
      ensures if rc == -1 then nv == old(nv) else exists saved :: SaveResult(old(nv), Contents(), nv, saved)
      ensures Storable(old(Current()), Unset(name)) ==> Current() == Step(old(Current()), Unset(name))
    {
      hide View, SaveResult, Less, Find, Linked, Distinct, Listed, LoadsInside;
      var envp := FindEnv(name);
      ghost var l, k := Contents(), Find(Contents(), name);
      if envp == null {
        IsStep(old(Current()), Unset(name), Current(), 0);
        return -1;
      }
      Unlink(envp, k);
      SameListed(nodes, EnvModel.UnsetEnv(l, name));
      var saved := SaveEnv();
      IsStep(old(Current()), Unset(name), Current(), saved);
      rc := 0;
    }

    method Unlink(envp: EnvNode, ghost k: nat)
      requires Valid() && k < |nodes| && envp == nodes[k]
      modifies this`environ, this`nodes, nodes`next, nodes`prev
      ensures Valid() && nodes == old(nodes[..k]) + old(nodes[k + 1..])
    {
      hide Distinct;
      DistinctRemove(nodes, k);
      assert LinkedAt(nodes, k);
      ghost var was := nodes;
      if k > 0 {
        Apart(nodes, 0, k);
      }
      if envp.prev != null {
        envp.prev.next := envp.next;
      }
      if envp.next != null {
        envp.next.prev := envp.prev;
      }
      if environ == envp {
        environ := envp.next;
      }
      nodes := nodes[..k] + nodes[k + 1..];
      forall j | 0 <= j < |nodes| ensures LinkedAt(nodes, j) {
        var i := if j < k then j else j + 1;
        assert nodes[j] == was[i] && old(LinkedAt(was, i));
        if k > 0 && i != k - 1 {
          Apart(was, i, k - 1);
        }
        if k + 1 < |was| && i != k + 1 {
          Apart(was, i, k + 1);
        }
      }
    }

    /** getenv */
    method GetEnv(name: Text) returns (value: Lookup)
      requires Valid()
      modifies this`environ, this`nodes, this`overrun
      ensures overrun == (old(overrun) || (old(environ) == null && !LoadsInside(nv)))
      ensures Valid() && Contents() == View(old(Current()))
      ensures value == EnvModel.GetEnv(Contents(), name)
    {
      hide View, Linked, LoadsInside;
      var envp := FindEnv(name);
      if envp == null {
        return Missing;
      }
      return Found(envp.value);
    }

    /** nextenv: asked for the first name it does not load the list. */
    method NextEnv(name: Text) returns (next: Lookup)
      requires Valid()
      modifies this`environ, this`nodes, this`overrun
      ensures overrun == (old(overrun) || (name != [] && old(environ) == null && !LoadsInside(nv)))
      ensures Valid() && Contents() == if name == [] then old(Contents()) else View(old(Current()))
      ensures next == EnvModel.NextEnv(Contents(), name)
    {
      hide View, LoadsInside;
      if name != [] {
        var envp := FindEnv(name);
        if envp != null {
          assert LinkedAt(nodes, Find(Contents(), name));
        }
        if envp != null && envp.next != null {
          return Found(envp.next.name);
        }
      } else if environ != null {
        return Found(environ.name);
      }
      return Missing;
    }
  }
}
