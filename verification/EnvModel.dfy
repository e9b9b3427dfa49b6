/** The environment as an ordered list of variables: what setenv, unsetenv, getenv and nextenv
    (crt/setenv.c, crt/getenv.c) do to it, and the finite map it stands for. */
module EnvModel {
  import opened NvMem

  /** The characters of a C string, without its terminator. */
  type Text = seq<byte>

  predicate NoNul(t: Text) {
    forall i :: 0 <= i < |t| ==> t[i] != 0
  }

  /** strcmp(a, b) < 0 */
  predicate Less(a: Text, b: Text) {
    if b == [] then false
    else if a == [] then true
    else if a[0] != b[0] then a[0] < b[0]
    else Less(a[1..], b[1..])
  }

  lemma {:induction false} LessTotal(a: Text, b: Text)
    ensures Less(a, b) || a == b || Less(b, a)
    ensures !(Less(a, b) && Less(b, a)) && !Less(a, a)
    decreases |a|
  {
    if a != [] {
      LessTotal(a[1..], a[1..]);
    }
    if a != [] && b != [] && a[0] == b[0] {
      LessTotal(a[1..], b[1..]);
      if a[1..] == b[1..] {
        assert a == [a[0]] + a[1..] && b == [b[0]] + b[1..];
      }
    }
  }

  lemma {:induction false} LessTransitive(a: Text, b: Text, c: Text)
    requires Less(a, b) && Less(b, c)
    ensures Less(a, c)
    decreases |a|
  {
    if a != [] && a[0] == b[0] && b[0] == c[0] {
      LessTransitive(a[1..], b[1..], c[1..]);
    }
  }

  /** The order of strcmp, without recursion: behind a common start of `k` characters the first string ends, or has
      the smaller character. */
  predicate DiffersAt(a: Text, b: Text, k: nat) {
    k <= |a| && k < |b| && a[..k] == b[..k] && (k == |a| || a[k] < b[k])
  }

  ghost predicate Precedes(a: Text, b: Text) {
    exists k: nat :: DiffersAt(a, b, k)
  }

  lemma CommonStart(a: Text, b: Text, k: nat)
    requires DiffersAt(a, b, k)
    ensures k > 0 ==> a[0] == b[0]
  {
    if k > 0 {
      assert a[0] == a[..k][0] && b[0] == b[..k][0];
    }
  }

  lemma {:induction false} LessIs(a: Text, b: Text)
    ensures Less(a, b) <==> Precedes(a, b)
    decreases |a|
  {
    if b == [] {
    } else if a == [] {
      assert DiffersAt(a, b, 0);
    } else if a[0] != b[0] {
      if a[0] < b[0] {
        assert DiffersAt(a, b, 0);
      }
      forall k: nat | DiffersAt(a, b, k) ensures k == 0 {
        CommonStart(a, b, k);
      }
    } else {
      LessIs(a[1..], b[1..]);
      assert a == [a[0]] + a[1..] && b == [b[0]] + b[1..];
      forall k: nat | DiffersAt(a[1..], b[1..], k) ensures DiffersAt(a, b, k + 1) {
        assert a[..k + 1] == [a[0]] + a[1..][..k] && b[..k + 1] == [b[0]] + b[1..][..k];
      }
      forall k: nat | DiffersAt(a, b, k) ensures k > 0 && DiffersAt(a[1..], b[1..], k - 1) {
        if k > 0 {
          assert a[1..][..k - 1] == a[..k][1..] && b[1..][..k - 1] == b[..k][1..];
        }
      }
    }
  }

  datatype Entry = Entry(name: Text, value: Text)

  /** Strictly ascending by name. */
  predicate Sorted(l: seq<Entry>) {
    forall i, j :: 0 <= i < j < |l| ==> Less(l[i].name, l[j].name)
  }

  /** Index of the first variable of that name, or the length of the list. */
  function Find(l: seq<Entry>, name: Text): (k: nat)
    ensures k <= |l| && (k < |l| ==> l[k].name == name) && forall i :: 0 <= i < k ==> l[i].name != name
  {
    if l == [] || l[0].name == name then 0 else 1 + Find(l[1..], name)
  }

  /** Index of the first variable the name comes before. */
  function Place(l: seq<Entry>, name: Text): (k: nat)
    ensures k <= |l| && (k < |l| ==> Less(name, l[k].name)) && forall i :: 0 <= i < k ==> !Less(name, l[i].name)
  {
    if l == [] || Less(name, l[0].name) then 0 else 1 + Place(l[1..], name)
  }

  /** setenv: add a variable at its place, or change its value if that is wanted. */
  function SetEnv(l: seq<Entry>, name: Text, value: Text, force: bool): seq<Entry> {
    var k := Find(l, name);
    if k == |l| then
      var p := Place(l, name);
      l[..p] + [Entry(name, value)] + l[p..]
    else if force then l[k := Entry(name, value)]
    else l
  }

  /** unsetenv */
  function UnsetEnv(l: seq<Entry>, name: Text): seq<Entry> {
    var k := Find(l, name);
    if k == |l| then l else l[..k] + l[k + 1..]
  }

  datatype Lookup = Missing | Found(value: Text)

  /** getenv */
  function GetEnv(l: seq<Entry>, name: Text): Lookup {
    var k := Find(l, name);
    if k == |l| then Missing else Found(l[k].value)
  }

  // ----- The map

  /** Of variables with the same name the first one counts. */
  function AsMap(l: seq<Entry>): map<Text, Text> {
    if l == [] then map[] else AsMap(l[1..])[l[0].name := l[0].value]
  }

  /** getenv looks up the map. */
  lemma {:induction false} GetEnvIsLookup(l: seq<Entry>, name: Text)
    ensures GetEnv(l, name) == if name in AsMap(l) then Found(AsMap(l)[name]) else Missing
  {
    if l != [] && l[0].name != name {
      GetEnvIsLookup(l[1..], name);
    }
  }

  lemma SameLookups(a: map<Text, Text>, b: map<Text, Text>)
    requires forall n :: (n in a <==> n in b) && (n in a ==> a[n] == b[n])
    ensures a == b
  {
  }

  /** In a sorted list a name has one place. */
  lemma FindAt(l: seq<Entry>, k: nat)
    requires Sorted(l) && k < |l|
    ensures Find(l, l[k].name) == k
  {
    var j := Find(l, l[k].name);
    LessTotal(l[k].name, l[k].name);
  }

  lemma SortedInsert(l: seq<Entry>, e: Entry)
    requires Sorted(l) && Find(l, e.name) == |l|
    ensures var p := Place(l, e.name); Sorted(l[..p] + [e] + l[p..])
  {
    var p := Place(l, e.name);
    var m := l[..p] + [e] + l[p..];
    forall i, j | 0 <= i < j < |m| ensures Less(m[i].name, m[j].name) {
      if i < p && j == p {
        assert !Less(e.name, l[i].name) && l[i].name != e.name;
        LessTotal(e.name, l[i].name);
      } else if i == p && j > p + 1 {
        LessTransitive(e.name, l[p].name, l[j - 1].name);
      }
    }
  }

  /** The names ascend in the order of strcmp. */
  ghost predicate Ascending(names: seq<Text>) {
    forall i, j :: 0 <= i < j < |names| ==> Precedes(names[i], names[j])
  }

  function Names(l: seq<Entry>): (names: seq<Text>)
    ensures |names| == |l| && forall i :: 0 <= i < |l| ==> names[i] == l[i].name
  {
    seq(|l|, i requires 0 <= i < |l| => l[i].name)
  }

  lemma SortedAscends(l: seq<Entry>)
    ensures Sorted(l) <==> Ascending(Names(l))
  {
    forall i, j | 0 <= i < j < |l| ensures Less(l[i].name, l[j].name) <==> Precedes(Names(l)[i], Names(l)[j]) {
      LessIs(l[i].name, l[j].name);
    }
  }

  /** setenv keeps the names ascending as strcmp compares them: with a new name all those in front precede it, and
      it precedes all those behind. */
  lemma SetEnvAscends(l: seq<Entry>, name: Text, value: Text, force: bool)
    requires Ascending(Names(l))
    ensures Ascending(Names(SetEnv(l, name, value, force)))
    ensures name !in Names(l) ==>
      exists p: nat :: p <= |l| && SetEnv(l, name, value, force) == l[..p] + [Entry(name, value)] + l[p..]
        && (forall i :: 0 <= i < p ==> Precedes(l[i].name, name))
        && (forall i :: p <= i < |l| ==> Precedes(name, l[i].name))
  {
    hide Precedes, SetEnv;
    SortedAscends(l);
    SetEnvSorted(l, name, value, force);
    var m := SetEnv(l, name, value, force);
    SortedAscends(m);
    if name !in Names(l) {
      var p := Place(l, name);
      NewName(l, name, value, force);
      forall i | 0 <= i < |l|
        ensures i < p ==> Precedes(l[i].name, name)
        ensures i >= p ==> Precedes(name, l[i].name)
      {
        if i < p {
          assert Precedes(Names(m)[i], Names(m)[p]);
        } else {
          assert Precedes(Names(m)[p], Names(m)[i + 1]);
        }
      }
    }
  }

  lemma NewName(l: seq<Entry>, name: Text, value: Text, force: bool)
    requires name !in Names(l)
    ensures
      var p := Place(l, name);
      SetEnv(l, name, value, force) == l[..p] + [Entry(name, value)] + l[p..]
  {
    assert forall i :: 0 <= i < |l| ==> Names(l)[i] == l[i].name;
  }

  lemma SetEnvSorted(l: seq<Entry>, name: Text, value: Text, force: bool)
    requires Sorted(l)
    ensures Sorted(SetEnv(l, name, value, force))
  {
    if Find(l, name) == |l| {
      SortedInsert(l, Entry(name, value));
    }
  }

  lemma UnsetEnvSorted(l: seq<Entry>, name: Text)
    requires Sorted(l)
    ensures Sorted(UnsetEnv(l, name))
  {
  }

  lemma NotFound(l: seq<Entry>, name: Text)
    requires forall i :: 0 <= i < |l| ==> l[i].name != name
    ensures GetEnv(l, name) == Missing
  {
  }

  lemma GetAfterInsert(l: seq<Entry>, e: Entry, n: Text)
    requires Sorted(l) && Find(l, e.name) == |l|
    ensures
      var p := Place(l, e.name);
      GetEnv(l[..p] + [e] + l[p..], n) == if n == e.name then Found(e.value) else GetEnv(l, n)
  {
    hide Sorted, Less, Find, Place;
    SortedInsert(l, e);
    var p, i := Place(l, e.name), Find(l, n);
    var m := l[..p] + [e] + l[p..];
    if n == e.name {
      FindAt(m, p);
    } else if i < |l| {
      FindAt(m, if i < p then i else i + 1);
    } else {
      forall j | 0 <= j < |m| ensures m[j].name != n {
        assert m[j] == if j < p then l[j] else if j == p then e else l[j - 1];
      }
      NotFound(m, n);
    }
  }

  lemma GetAfterUpdate(l: seq<Entry>, k: nat, value: Text, n: Text)
    requires Sorted(l) && k < |l|
    ensures Sorted(l[k := Entry(l[k].name, value)])
    ensures GetEnv(l[k := Entry(l[k].name, value)], n) == if n == l[k].name then Found(value) else GetEnv(l, n)
  {
    hide Less, Find;
    var m, i := l[k := Entry(l[k].name, value)], Find(l, n);
    assert Sorted(m);
    if n == l[k].name {
      FindAt(m, k);
    } else if i < |l| {
      FindAt(m, i);
    } else {
      NotFound(m, n);
    }
  }

  /** What getenv finds after setenv: the new value under that name, unless an existing one was to be
      left alone, and the old values under all others. */
  lemma GetAfterSet(l: seq<Entry>, name: Text, value: Text, force: bool, n: Text)
    requires Sorted(l)
    ensures GetEnv(SetEnv(l, name, value, force), n)
      == if n == name && (force || GetEnv(l, name) == Missing) then Found(value) else GetEnv(l, n)
  {
    hide Less, Find, Place, Sorted;
    var k := Find(l, name);
    if k == |l| {
      GetAfterInsert(l, Entry(name, value), n);
    } else {
      GetAfterUpdate(l, k, value, n);
    }
  }

  /** setenv refines updating the map. */
  lemma SetEnvIsUpdate(l: seq<Entry>, name: Text, value: Text, force: bool)
    requires Sorted(l)
    ensures
      AsMap(SetEnv(l, name, value, force)) == if name in AsMap(l) && !force then AsMap(l) else AsMap(l)[name := value]
  {
    var m := SetEnv(l, name, value, force);
    GetEnvIsLookup(l, name);
    var want := if name in AsMap(l) && !force then AsMap(l) else AsMap(l)[name := value];
    forall n ensures (n in AsMap(m) <==> n in want) && (n in want ==> AsMap(m)[n] == want[n]) {
      GetAfterSet(l, name, value, force, n);
      GetEnvIsLookup(l, n);
      GetEnvIsLookup(m, n);
    }
    SameLookups(AsMap(m), want);
  }

  lemma GetAfterUnset(l: seq<Entry>, name: Text, n: Text)
    requires Sorted(l)
    ensures GetEnv(UnsetEnv(l, name), n) == if n == name then Missing else GetEnv(l, n)
  {
    UnsetEnvSorted(l, name);
    var m, k, i := UnsetEnv(l, name), Find(l, name), Find(l, n);
    if k < |l| {
      if n != name && i < |l| {
        FindAt(m, if i < k then i else i - 1);
      } else {
        forall j | 0 <= j < |m| ensures m[j].name != n {
          assert m[j] == l[if j < k then j else j + 1];
          if n == name {
            LessTotal(n, n);
          }
        }
      }
    }
  }

  /** unsetenv refines removing from the map. */
  lemma UnsetEnvIsRemoval(l: seq<Entry>, name: Text)
    requires Sorted(l)
    ensures AsMap(UnsetEnv(l, name)) == AsMap(l) - {name}
  {
    var m := UnsetEnv(l, name);
    forall n
      ensures n in AsMap(m) <==> n in AsMap(l) - {name}
      ensures n in AsMap(l) - {name} ==> AsMap(m)[n] == (AsMap(l) - {name})[n]
    {
      GetAfterUnset(l, name, n);
      GetEnvIsLookup(l, n);
      GetEnvIsLookup(m, n);
    }
    SameLookups(AsMap(m), AsMap(l) - {name});
  }

  // ----- Iteration

  /** nextenv: the name after the given one; the first name for an empty name. */
  function NextEnv(l: seq<Entry>, name: Text): Lookup {
    if name == [] then (if l == [] then Missing else Found(l[0].name))
    else
      var k := Find(l, name);
      if k + 1 < |l| then Found(l[k + 1].name) else Missing
  }

  /** The names nextenv yields, starting after `name`, in at most `fuel` calls. */
  function Walk(l: seq<Entry>, name: Text, fuel: nat): seq<Text>
    decreases fuel
  {
    if fuel == 0 then []
    else
      match NextEnv(l, name)
      case Missing => []
      case Found(n) => [n] + Walk(l, n, fuel - 1)
  }

  /** Iterating nextenv visits every name once, in ascending order, and then stops. */
  lemma WalkVisitsAll(l: seq<Entry>, fuel: nat)
    requires Sorted(l) && (forall i :: 0 <= i < |l| ==> l[i].name != []) && fuel >= |l|
    ensures |Walk(l, [], fuel)| == |l| && forall i :: 0 <= i < |l| ==> Walk(l, [], fuel)[i] == l[i].name
    ensures Ascending(Walk(l, [], fuel))
  {
    SortedAscends(l);
    assert Walk(l, [], fuel) == Names(l) by {
      WalkFirst(l, fuel);
    }
  }

  lemma WalkFirst(l: seq<Entry>, fuel: nat)
    requires Sorted(l) && (forall i :: 0 <= i < |l| ==> l[i].name != []) && fuel >= |l|
    ensures |Walk(l, [], fuel)| == |l| && forall i :: 0 <= i < |l| ==> Walk(l, [], fuel)[i] == l[i].name
  {
    if l != [] {
      WalkFrom(l, 0, fuel - 1);
    }
  }

  lemma {:induction false} WalkFrom(l: seq<Entry>, k: nat, fuel: nat)
    requires Sorted(l) && (forall i :: 0 <= i < |l| ==> l[i].name != []) && k < |l| && fuel >= |l| - 1 - k
    ensures
      var w := Walk(l, l[k].name, fuel);
      |w| == |l| - 1 - k && forall i :: 0 <= i < |w| ==> w[i] == l[k + 1 + i].name
    decreases fuel
  {
    FindAt(l, k);
    if k + 1 < |l| {
      WalkFrom(l, k + 1, fuel - 1);
    }
  }
}
