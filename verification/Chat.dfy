/** The chat matcher of dev/chat.c: waiting for an expected string on a serial line while watching
    for abort strings.  Both are recognised incrementally, one character at a time, by an automaton
    whose only fallback is to the very start of the string. */
module Chat {

  /** True iff the text read so far ends with `p`. */
  predicate EndsWith(text: string, p: string) {
    |p| <= |text| && text[|text| - |p|..] == p
  }

  /** The character a C string shows at index `i`; the terminator is NUL. */
  function CharAt(p: string, i: nat): char {
    if i < |p| then p[i] else '\0'
  }

  /** A C string: its characters are not the terminator. */
  predicate CString(p: string) {
    forall i :: 0 <= i < |p| ==> p[i] != '\0'
  }

  /** One character read while `k` characters of `p` are matched: on a mismatch restart at the
      beginning of the string, then advance if the (new) next character matches. */
  function Step(p: string, k: nat, ch: char): (k': nat)
    requires k < |p|
    ensures k' <= |p|
  {
    var from := if ch != p[k] then 0 else k;
    if ch == p[from] then from + 1 else from
  }

  /** The number of characters consumed until `p` is completely matched, starting with `k` matched
      characters; `None` if the line goes silent first. */
  datatype Found = At(end: nat) | Never

  function Match(p: string, k: nat, line: string): (f: Found)
    requires k <= |p|
    ensures f.At? ==> f.end <= |line|
    decreases |line|
  {
    if k == |p| then At(0)
    else if line == [] then Never
    else
      match Match(p, Step(p, k, line[0]), line[1..])
      case At(n) => At(n + 1)
      case Never => Never
  }

  /** `f` is where the first occurrence of `p` in `line` ends. */
  predicate FirstOccurrence(p: string, line: string, f: Found) {
    match f
    case At(n) => n <= |line| && EndsWith(line[..n], p) && forall m :: 0 <= m < n ==> !EndsWith(line[..m], p)
    case Never => forall m :: 0 <= m <= |line| ==> !EndsWith(line[..m], p)
  }

  // ----- When the restart automaton finds every first occurrence

  /** `p` repeats itself with the distance at which its first character recurs.  This includes every
      string whose first character does not recur at all. */
  predicate RepeatsFrom(p: string, d: nat) {
    forall i :: 0 <= i < |p| - d ==> p[i + d] == p[i]
  }

  predicate FirstRecurrence(p: string, d: nat) {
    0 < d < |p| && p[d] == p[0] && forall i :: 0 < i < d ==> p[i] != p[0]
  }

  predicate SelfRepeating(p: string) {
    forall d :: 0 < d < |p| && FirstRecurrence(p, d) ==> RepeatsFrom(p, d)
  }

  /** `k` is the length of the longest prefix of `p` that ends the text. */
  predicate Longest(p: string, text: string, k: nat) {
    k <= |p| && EndsWith(text, p[..k]) && forall j :: k < j <= |p| ==> !EndsWith(text, p[..j])
  }

  /** In a self-repeating string a border of a prefix continues exactly as that prefix does. */
  lemma BorderContinues(p: string, k: nat, b: nat)
    requires SelfRepeating(p)
    requires 0 < b < k < |p| && EndsWith(p[..k], p[..b])
    ensures p[b] == p[k]
  {
    var e := k - b;
    assert forall i :: 0 <= i < b ==> p[i + e] == p[i] by {
      forall i | 0 <= i < b ensures p[i + e] == p[i] {
        assert p[..k][k - b..][i] == p[..b][i];
      }
    }
    assert p[0 + e] == p[0];
    var d := LeastRecurrence(p, e);
    assert RepeatsFrom(p, d);
    BorderIsMultiple(p, d, e, b);
    RepeatsMultiple(p, d, e, b);
  }

  lemma LeastRecurrence(p: string, e: nat) returns (d: nat)
    requires 0 < e < |p| && p[e] == p[0]
    ensures 0 < d <= e && FirstRecurrence(p, d)
  {
    d := 1;
    while p[d] != p[0]
      invariant 0 < d <= e
      invariant forall i :: 0 < i < d ==> p[i] != p[0]
      decreases e - d
    {
      d := d + 1;
    }
  }

  /** Every distance at which the first character recurs is a multiple of the first such distance. */
  lemma {:induction false} BorderIsMultiple(p: string, d: nat, e: nat, b: nat)
    requires FirstRecurrence(p, d) && RepeatsFrom(p, d)
    requires 0 < e < |p| && p[e] == p[0]
    ensures e % d == 0
    decreases e
  {
    if e < d {
    } else if e == d {
    } else {
      assert p[(e - d) + d] == p[e - d];
      BorderIsMultiple(p, d, e - d, b);
      assert e % d == (e - d) % d by { ModShift(e - d, d); }
    }
  }

  lemma ModShift(a: nat, d: nat)
    requires d > 0
    ensures (a + d) % d == a % d
  {
    var q := a / d - (a + d) / d;
    assert (a + d) % d - a % d == d * q + d;
  }

  lemma {:induction false} RepeatsMultiple(p: string, d: nat, e: nat, i: nat)
    requires d > 0 && RepeatsFrom(p, d) && e % d == 0 && i + e < |p|
    ensures p[i + e] == p[i]
    decreases e
  {
    if e > 0 {
      assert e >= d;
      ModShift(e - d, d);
      RepeatsMultiple(p, d, e - d, i);
      assert p[(i + e - d) + d] == p[i + e - d];
    }
  }

  /** The automaton keeps the longest matching prefix. */
  lemma StepKeepsLongest(p: string, text: string, k: nat, ch: char)
    requires SelfRepeating(p) && k < |p| && Longest(p, text, k)
    ensures Longest(p, text + [ch], Step(p, k, ch))
  {
    var t, k' := text + [ch], Step(p, k, ch);
    StepSound(p, text, k, ch);
    forall j | k' < j <= |p|
      ensures !EndsWith(t, p[..j])
    {
      if EndsWith(t, p[..j]) {
        Unsnoc(p, text, ch, j);
        assert p[..j - 1] == p[..j][..j - 1];
        if j - 1 > k {
          assert false;
        } else if j - 1 < k && j > 1 {
          assert EndsWith(p[..k], p[..j - 1]) by { SuffixOfSuffix(text, p[..k], p[..j - 1]); }
          BorderContinues(p, k, j - 1);
          assert false;
        }
      }
    }
  }

  lemma Unsnoc(p: string, text: string, ch: char, j: nat)
    requires 0 < j <= |p| && EndsWith(text + [ch], p[..j])
    ensures EndsWith(text, p[..j - 1]) && ch == p[j - 1]
  {
    var t := text + [ch];
    var s := t[|t| - j..];
    assert s[j - 1] == ch;
    assert text[|text| - (j - 1)..] == s[..j - 1];
    assert p[..j][..j - 1] == p[..j - 1];
  }

  lemma SuffixOfSuffix(text: string, a: string, b: string)
    requires EndsWith(text, a) && EndsWith(text, b) && |b| <= |a|
    ensures EndsWith(a, b)
  {
    assert a[|a| - |b|..] == text[|text| - |a|..][|a| - |b|..] == text[|text| - |b|..];
  }

  /** Soundness of one step, for every string. */
  lemma StepSound(p: string, text: string, k: nat, ch: char)
    requires k < |p| && EndsWith(text, p[..k])
    ensures EndsWith(text + [ch], p[..Step(p, k, ch)])
  {
    var t := text + [ch];
    if ch == p[k] {
      assert p[..k + 1] == p[..k] + [ch];
      assert t[|t| - (k + 1)..] == text[|text| - k..] + [ch];
    } else if ch == p[0] {
      assert t[|t| - 1..] == [ch] == p[..1];
    }
  }

  /** A self-repeating string is found at its first occurrence in every line. */
  lemma {:induction false} MatchFrom(p: string, text: string, k: nat, line: string)
    requires SelfRepeating(p) && k <= |p| && Longest(p, text, k)
    requires forall m :: 0 <= m < |text| ==> !EndsWith(text[..m], p)
    ensures
      match Match(p, k, line)
      case At(n) => FirstOccurrence(p, text + line, At(|text| + n))
      case Never => FirstOccurrence(p, text + line, Never)
    decreases |line|
  {
    hide EndsWith, SelfRepeating, Longest, Step, FirstOccurrence;
    if k == |p| {
      MatchDone(p, text, line);
    } else if line == [] {
      MatchSilent(p, text, k);
      assert text + line == text;
    } else {
      var text' := text + [line[0]];
      StepKeepsLongest(p, text, k, line[0]);
      StillQuiet(p, text, k, line[0]);
      MatchFrom(p, text', Step(p, k, line[0]), line[1..]);
      assert text' + line[1..] == text + line;
    }
  }

  lemma MatchDone(p: string, text: string, line: string)
    requires Longest(p, text, |p|) && forall m :: 0 <= m < |text| ==> !EndsWith(text[..m], p)
    ensures FirstOccurrence(p, text + line, At(|text|))
  {
    assert (text + line)[..|text|] == text && p[..|p|] == p;
    forall m | 0 <= m < |text| ensures !EndsWith((text + line)[..m], p) {
      assert (text + line)[..m] == text[..m];
    }
  }

  lemma MatchSilent(p: string, text: string, k: nat)
    requires k < |p| && Longest(p, text, k) && forall m :: 0 <= m < |text| ==> !EndsWith(text[..m], p)
    ensures FirstOccurrence(p, text, Never)
  {
    assert p[..|p|] == p && text[..|text|] == text;
  }

  lemma StillQuiet(p: string, text: string, k: nat, ch: char)
    requires k < |p| && Longest(p, text, k) && forall m :: 0 <= m < |text| ==> !EndsWith(text[..m], p)
    ensures forall m :: 0 <= m < |text + [ch]| ==> !EndsWith((text + [ch])[..m], p)
  {
    assert p[..|p|] == p && (text + [ch])[..|text|] == text;
    forall m | 0 <= m < |text| ensures !EndsWith((text + [ch])[..m], p) {
      assert (text + [ch])[..m] == text[..m];
    }
  }

  /** The converse: a string that is not self-repeating has an occurrence the matcher misses. */
  lemma MissedOccurrence(p: string) returns (line: string)
    requires !SelfRepeating(p)
    ensures EndsWith(line, p) && Match(p, 0, line) == Never
  {
    var d :| 0 < d < |p| && FirstRecurrence(p, d) && !RepeatsFrom(p, d);
    var b := FirstBreak(p, d);
    line := p[..b + d] + p[b..];
    Overlap(p, d, b);
    MissesOverlap(p, d, b);
  }

  /** Up to the break, `p` shifted by `d` lies on top of `p`. */
  lemma Overlap(p: string, d: nat, b: nat)
    requires b + d < |p| && forall i :: 0 <= i < b ==> p[i + d] == p[i]
    ensures EndsWith(p[..b + d] + p[b..], p)
  {
    assert p[d..b + d] == p[..b];
    assert p[..b + d] == p[..d] + p[d..b + d];
    assert p[..b] + p[b..] == p;
    assert p[..b + d] + p[b..] == p[..d] + p;
  }

  lemma MissesOverlap(p: string, d: nat, b: nat)
    requires 0 < b && b + d < |p| && p[b + d] != p[b]
    ensures Match(p, 0, p[..b + d] + p[b..]) == Never
  {
    var rest := p[b..];
    MatchPrefix(p, 0, b + d, rest);
    assert p[0..b + d] == p[..b + d];
    MatchTooShort(p, Step(p, b + d, rest[0]), rest[1..]);
  }

  /** The first place where `p` stops repeating with distance `d`. */
  lemma FirstBreak(p: string, d: nat) returns (b: nat)
    requires 0 < d < |p| && p[d] == p[0] && !RepeatsFrom(p, d)
    ensures 0 < b < |p| - d && p[b + d] != p[b] && forall i :: 0 <= i < b ==> p[i + d] == p[i]
  {
    var stop :| 0 <= stop < |p| - d && p[stop + d] != p[stop];
    b := 1;
    while p[b + d] == p[b]
      invariant 0 < b <= stop
      invariant forall j :: 0 <= j < b ==> p[j + d] == p[j]
      decreases stop - b
    {
      b := b + 1;
    }
  }

  /** Reading on along `p` itself advances the automaton step by step. */
  lemma {:induction false} MatchPrefix(p: string, i: nat, k: nat, rest: string)
    requires i <= k < |p|
    ensures Match(p, i, p[i..k] + rest) == (match Match(p, k, rest) case At(n) => At(k - i + n) case Never => Never)
    decreases k - i
  {
    if i < k {
      var line := p[i..k] + rest;
      assert line[0] == p[i] && line[1..] == p[i + 1..k] + rest;
      MatchPrefix(p, i + 1, k, rest);
    } else {
      assert p[i..k] + rest == rest;
    }
  }

  lemma {:induction false} MatchTooShort(p: string, k: nat, line: string)
    requires k + |line| < |p|
    ensures Match(p, k, line) == Never
    decreases |line|
  {
    if line != [] {
      MatchTooShort(p, Step(p, k, line[0]), line[1..]);
    }
  }

  /** Exactly when the matcher reports the first occurrence on every line. */
  lemma CompleteIffSelfRepeating(p: string)
    requires p != []
    ensures (forall line :: FirstOccurrence(p, line, Match(p, 0, line))) <==> SelfRepeating(p)
  {
    if SelfRepeating(p) {
      forall line ensures FirstOccurrence(p, line, Match(p, 0, line)) {
        StartLongest(p);
        MatchFrom(p, [], 0, line);
        assert [] + line == line;
      }
    } else {
      var line := MissedOccurrence(p);
      assert line[..|line|] == line;
      assert !FirstOccurrence(p, line, Match(p, 0, line));
    }
  }

  lemma StartLongest(p: string)
    ensures Longest(p, [], 0)
  {
  }

  // ----- Abort strings, whose matching state outlives a call

  /** One character against one abort string; the state is an 8-bit counter. */
  function AbortStep(p: string, m: nat, ch: char): nat
    requires m < |p|
  {
    if ch == p[m] then (m + 1) % 256 else if ch == p[0] then 1 else 0
  }

  /** An abort string fires when its counter reaches the terminator. */
  predicate Fires(p: string, m: nat, ch: char)
    requires m < |p|
  {
    ch == p[m] && CharAt(p, (m + 1) % 256) == '\0'
  }

  predicate Counters(aborts: seq<string>, abomat: seq<nat>) {
    && |abomat| == |aborts|
    && forall i :: 0 <= i < |aborts| ==>
      aborts[i] != [] && CString(aborts[i]) && abomat[i] < |aborts[i]| && abomat[i] < 256
  }

  /** Each counter says how much of its string the text ends with. */
  ghost predicate Sound(aborts: seq<string>, abomat: seq<nat>, text: string) {
    && Counters(aborts, abomat)
    && forall i :: 0 <= i < |aborts| ==> EndsWith(text, aborts[i][..abomat[i]])
  }

  /** The strings for which the counter is the longest match. */
  predicate Recognisable(p: string) {
    SelfRepeating(p) && |p| < 256
  }

  ghost predicate Sharp(aborts: seq<string>, abomat: seq<nat>, text: string) {
    && Sound(aborts, abomat, text)
    && forall i :: 0 <= i < |aborts| && Recognisable(aborts[i]) ==> Longest(aborts[i], text, abomat[i])
  }

  /** No recognisable abort string ends in the text after its first `lo` and up to its first `hi`
      characters. */
  ghost predicate Quiet(aborts: seq<string>, text: string, lo: nat, hi: nat)
    requires hi <= |text|
  {
    forall m, i :: lo < m <= hi && 0 <= i < |aborts| && Recognisable(aborts[i]) ==> !EndsWith(text[..m], aborts[i])
  }

  lemma QuietExtends(aborts: seq<string>, text: string, lo: nat, ch: char)
    requires lo <= |text| && Quiet(aborts, text, lo, |text|)
    ensures Quiet(aborts, text + [ch], lo, |text|)
    ensures (forall i :: 0 <= i < |aborts| && Recognisable(aborts[i]) ==> !EndsWith(text + [ch], aborts[i])) ==>
      Quiet(aborts, text + [ch], lo, |text| + 1)
  {
    var t := text + [ch];
    assert t[..|t|] == t;
    forall m | 0 <= m <= |text| ensures t[..m] == text[..m] {
    }
  }

  lemma AbortStepFacts(p: string, text: string, m: nat, ch: char)
    requires p != [] && CString(p) && m < |p| && m < 256 && EndsWith(text, p[..m])
    ensures Fires(p, m, ch) ==> EndsWith(text + [ch], p)
    ensures !Fires(p, m, ch) ==>
      AbortStep(p, m, ch) < |p| && AbortStep(p, m, ch) < 256 && EndsWith(text + [ch], p[..AbortStep(p, m, ch)])
    ensures Recognisable(p) && Longest(p, text, m) ==>
      if Fires(p, m, ch) then EndsWith(text + [ch], p)
      else !EndsWith(text + [ch], p) && Longest(p, text + [ch], AbortStep(p, m, ch))
  {
    StepSound(p, text, m, ch);
    assert p[..|p|] == p;
    if ch == p[m] && m == 255 {
      assert p[..0] == [];
    } else {
      assert AbortStep(p, m, ch) == Step(p, m, ch);
      if Recognisable(p) && Longest(p, text, m) {
        StepKeepsLongest(p, text, m, ch);
      }
    }
  }

  /** The first `n` strings have seen `ch` without firing, the others have not seen it. */
  ghost predicate Advanced(aborts: seq<string>, before: seq<nat>, after: seq<nat>, ch: char, n: nat)
    requires Counters(aborts, before)
  {
    && |after| == |aborts|
    && forall j :: 0 <= j < |aborts| ==>
      if j < n then !Fires(aborts[j], before[j], ch) && after[j] == AbortStep(aborts[j], before[j], ch)
      else after[j] == before[j]
  }

  lemma AdvancedFacts(aborts: seq<string>, before: seq<nat>, after: seq<nat>, text: string, ch: char, n: nat)
    requires Sound(aborts, before, text) && Advanced(aborts, before, after, ch, n)
    ensures n >= |aborts| ==> Sound(aborts, after, text + [ch])
    ensures n < |aborts| && Fires(aborts[n], before[n], ch) ==> EndsWith(text + [ch], aborts[n])
    ensures Sharp(aborts, before, text) ==>
      && (n >= |aborts| ==> Sharp(aborts, after, text + [ch]))
      && forall i :: 0 <= i < n && i < |aborts| && Recognisable(aborts[i]) ==> !EndsWith(text + [ch], aborts[i])
  {
    forall j | 0 <= j < |aborts|
      ensures j < n ==> after[j] < |aborts[j]| && after[j] < 256 && EndsWith(text + [ch], aborts[j][..after[j]])
      ensures j < n && Recognisable(aborts[j]) && Longest(aborts[j], text, before[j]) ==>
        !EndsWith(text + [ch], aborts[j]) && Longest(aborts[j], text + [ch], after[j])
      ensures Fires(aborts[j], before[j], ch) ==> EndsWith(text + [ch], aborts[j])
    {
      AbortStepFacts(aborts[j], text, before[j], ch);
    }
  }

  // ----- The counters after an abort

  predicate OnlyChar(q: string, ch: char) {
    forall i :: 0 <= i < |q| ==> q[i] == ch
  }

  /** A string the text ends with is again at its end one character later if and only if it consists of
      that character. */
  lemma EndsAgain(text: string, q: string, ch: char)
    requires EndsWith(text, q)
    ensures EndsWith(text + [ch], q) <==> OnlyChar(q, ch)
  {
    var t := text + [ch];
    assert t[|t| - |q|..] == (if q == [] then [] else text[|text| - |q|..][1..] + [ch]);
    if EndsWith(t, q) && q != [] {
      assert q == q[1..] + [ch];
      Shifted(q, ch);
    }
    if OnlyChar(q, ch) && q != [] {
      assert q[1..] + [ch] == q;
    }
  }

  lemma {:induction false} Shifted(q: string, ch: char)
    requires q != [] && q == q[1..] + [ch]
    ensures OnlyChar(q, ch)
    decreases |q|
  {
    if |q| > 1 {
      var r := q[1..];
      forall i | 0 <= i < |r| ensures r[i] == (r[1..] + [ch])[i] {
        assert q[i + 1] == (q[1..] + [ch])[i + 1];
      }
      Shifted(r, ch);
      assert q[0] == (q[1..] + [ch])[0];
      forall i | 0 <= i < |q| ensures q[i] == ch {
        assert i > 0 ==> q[i] == r[i - 1];
      }
    } else {
      assert q == [ch];
    }
  }

  /** The counters of string `n` and of the later ones have not moved with the last character; they are
      still true of the text exactly if they count nothing but that character. */
  ghost predicate StillTrue(aborts: seq<string>, abomat: seq<nat>, ch: char, n: nat)
    requires Counters(aborts, abomat)
  {
    forall j :: n <= j < |aborts| ==> OnlyChar(aborts[j][..abomat[j]], ch)
  }

  /** When string `n` has fired its counter is one short of its length, and the counters are sound if and
      only if they are still true. */
  lemma SoundAfterAbort(aborts: seq<string>, before: seq<nat>, after: seq<nat>, text: string, ch: char, n: nat)
    requires Sound(aborts, before, text) && Advanced(aborts, before, after, ch, n)
    requires n < |aborts| && Fires(aborts[n], before[n], ch)
    ensures Counters(aborts, after) && after[n] == |aborts[n]| - 1
    ensures Sound(aborts, after, text + [ch]) <==> StillTrue(aborts, after, ch, n)
  {
    hide EndsWith;
    CountersKept(aborts, before, after, ch, n);
    forall j | 0 <= j < |aborts|
      ensures j < n ==> EndsWith(text + [ch], aborts[j][..after[j]])
      ensures j >= n ==> (EndsWith(text + [ch], aborts[j][..after[j]]) <==> OnlyChar(aborts[j][..after[j]], ch))
    {
      AbortStepFacts(aborts[j], text, before[j], ch);
      if j >= n {
        EndsAgain(text, aborts[j][..before[j]], ch);
      }
    }
  }

  /** Counters stay in range whatever is read. */
  lemma CountersKept(aborts: seq<string>, before: seq<nat>, after: seq<nat>, ch: char, n: nat)
    requires Counters(aborts, before) && Advanced(aborts, before, after, ch, n)
    ensures Counters(aborts, after)
  {
  }

  // ----- A call as a function

  /** The first string from `i` on that fires. */
  function FirstFiring(aborts: seq<string>, abomat: seq<nat>, ch: char, i: nat): (n: nat)
    requires Counters(aborts, abomat) && i <= |aborts|
    ensures i <= n <= |aborts| && (n < |aborts| ==> Fires(aborts[n], abomat[n], ch))
    ensures forall j :: i <= j < n ==> !Fires(aborts[j], abomat[j], ch)
    decreases |aborts| - i
  {
    if i == |aborts| || Fires(aborts[i], abomat[i], ch) then i else FirstFiring(aborts, abomat, ch, i + 1)
  }

  function CountersAfter(aborts: seq<string>, abomat: seq<nat>, ch: char, n: nat): (after: seq<nat>)
    requires Counters(aborts, abomat) && n <= |aborts| && forall j :: 0 <= j < n ==> !Fires(aborts[j], abomat[j], ch)
    ensures Counters(aborts, after) && Advanced(aborts, abomat, after, ch, n)
  {
    var after: seq<nat> :=
      seq(|aborts|, j requires 0 <= j < |aborts| => if j < n then AbortStep(aborts[j], abomat[j], ch) else abomat[j]);
    CountersKept(aborts, abomat, after, ch, n);
    after
  }

  /** What a call returns, the counters it leaves and what is left of the line. */
  datatype Call = Call(rc: nat, abomat: seq<nat>, line: string)

  function Expect(str: string, aborts: seq<string>, abomat: seq<nat>, cp: nat, line: string): Call
    requires cp <= |str| && Counters(aborts, abomat)
    decreases |line|
  {
    if cp == |str| then Call(0, abomat, line)
    else if line == [] then Call(3, abomat, [])
    else
      var n := FirstFiring(aborts, abomat, line[0], 0);
      var after := CountersAfter(aborts, abomat, line[0], n);
      if n < |aborts| then Call(n + 4, after, line[1..])
      else Expect(str, aborts, after, Step(str, cp, line[0]), line[1..])
  }

  lemma AdvancedIs(aborts: seq<string>, before: seq<nat>, after: seq<nat>, ch: char, n: nat)
    requires Counters(aborts, before) && n <= |aborts| && Advanced(aborts, before, after, ch, n)
    requires n < |aborts| ==> Fires(aborts[n], before[n], ch)
    ensures FirstFiring(aborts, before, ch, 0) == n && CountersAfter(aborts, before, ch, n) == after
  {
    var k := FirstFiring(aborts, before, ch, 0);
    assert after == CountersAfter(aborts, before, ch, n);
  }

  /** The state of a call in progress: `text0` and `line0` at the start of the call, `cp` characters
      of `str` matched now. */
  ghost predicate InProgress(str: string, text0: string, line0: string, text: string, line: string, cp: nat) {
    && cp <= |str| && text0 <= text
    && text0 + line0 == text + line
    && EndsWith(text[|text0|..], str[..cp])
    && Match(str, 0, line0) == (match Match(str, cp, line) case At(n) => At(|text| - |text0| + n) case Never => Never)
  }

  lemma ProgressStep(str: string, text0: string, line0: string, text: string, line: string, cp: nat)
    requires InProgress(str, text0, line0, text, line, cp) && cp < |str| && line != []
    ensures InProgress(str, text0, line0, text + [line[0]], line[1..], Step(str, cp, line[0]))
  {
    var text' := text + [line[0]];
    assert text'[|text0|..] == text[|text0|..] + [line[0]];
    StepSound(str, text[|text0|..], cp, line[0]);
  }

  /** What is known about the abort strings while a call that began after `lo` characters goes on, with
      counters that were sound, and even sharp, at its start. */
  ghost predicate Watching(aborts: seq<string>, abomat: seq<nat>, text: string, lo: nat, sound: bool, sharp: bool) {
    && Counters(aborts, abomat)
    && (sound ==> Sound(aborts, abomat, text))
    && (sharp ==> Sharp(aborts, abomat, text) && Quiet(aborts, text, lo, |text|))
  }

  /** What is known when the string of index `n` has fired. */
  ghost predicate Aborted(aborts: seq<string>, abomat: seq<nat>, text: string, lo: nat, sound: bool, sharp: bool,
      n: nat) {
    && Counters(aborts, abomat) && n < |aborts| && lo < |text| && abomat[n] == |aborts[n]| - 1
    && (sound ==>
      && EndsWith(text, aborts[n])
      && (Sound(aborts, abomat, text) <==> StillTrue(aborts, abomat, text[|text| - 1], n)))
    && (sharp ==>
      && Quiet(aborts, text, lo, |text| - 1)
      && forall i :: 0 <= i < n && Recognisable(aborts[i]) ==> !EndsWith(text, aborts[i]))
  }

  lemma CallStarts(str: string, aborts: seq<string>, abomat: seq<nat>, text: string, line: string)
    requires Counters(aborts, abomat)
    ensures InProgress(str, text, line, text, line, 0)
    ensures Watching(aborts, abomat, text, |text|, Sound(aborts, abomat, text), Sharp(aborts, abomat, text))
  {
  }

  lemma MatchEnds(str: string, cp: nat)
    requires cp <= |str|
    ensures Match(str, cp, []) == if cp == |str| then At(0) else Never
    ensures cp == |str| ==> forall line :: Match(str, cp, line) == At(0)
  {
  }

  lemma WatchingStep(aborts: seq<string>, before: seq<nat>, after: seq<nat>, text: string, ch: char, lo: nat,
                     sound: bool, sharp: bool, n: nat)
    requires lo <= |text| && (sharp ==> sound) && Watching(aborts, before, text, lo, sound, sharp)
    requires Advanced(aborts, before, after, ch, n)
    requires n < |aborts| ==> Fires(aborts[n], before[n], ch)
    ensures n < |aborts| ==> Aborted(aborts, after, text + [ch], lo, sound, sharp, n)
    ensures n >= |aborts| ==> Watching(aborts, after, text + [ch], lo, sound, sharp)
  {
    hide EndsWith, StillTrue, Fires, Advanced, Longest;
    CountersKept(aborts, before, after, ch, n);
    if n < |aborts| {
      FiredCounter(aborts, before, after, ch, n);
    }
    if sound {
      AdvancedFacts(aborts, before, after, text, ch, n);
      if n < |aborts| {
        SoundAfterAbort(aborts, before, after, text, ch, n);
      }
    }
    if sharp {
      QuietExtends(aborts, text, lo, ch);
    }
  }

  lemma FiredCounter(aborts: seq<string>, before: seq<nat>, after: seq<nat>, ch: char, n: nat)
    requires Counters(aborts, before) && Advanced(aborts, before, after, ch, n)
    requires n < |aborts| && Fires(aborts[n], before[n], ch)
    ensures after[n] == |aborts[n]| - 1
  {
  }

  class NutChat {
    var chatAbort: seq<string>
    var chatAbomat: seq<nat>
    /** Characters the line will still deliver before the read timeout. */
    var line: string
    /** Everything read through this structure. */
    ghost var heard: string

    constructor (aborts: seq<string>, line: string)
      requires forall i :: 0 <= i < |aborts| ==> aborts[i] != [] && CString(aborts[i])
      ensures chatAbort == aborts && this.line == line && heard == []
      ensures Sharp(chatAbort, chatAbomat, heard)
    {
      chatAbort := aborts;
      chatAbomat := seq(|aborts|, _ => 0);
      this.line := line;
      heard := [];
    }

    method Read() returns (ch: char, count: nat)
      modifies this`line, this`heard
      ensures old(line) == [] ==> count == 0 && line == [] && heard == old(heard)
      ensures old(line) != [] ==> count == 1 && old(line) == [ch] + line && heard == old(heard) + [ch]
    {
      ch, count := '\0', 0;
      if line != [] {
        ch, count := line[0], 1;
        heard := heard + [ch];
        line := line[1..];
      }
    }

    /** Shows one character to every abort string.  Returns 0, or 4 plus the index of the first string
        that fires; the counters of that string and of the later ones are then left as they were. */
    method CheckAborts(ch: char, ghost text: string) returns (rc: nat)
      requires Counters(chatAbort, chatAbomat)
      modifies this`chatAbomat
      ensures rc == 0 || 4 <= rc < 4 + |chatAbort|
      ensures rc == 0 ==> Advanced(chatAbort, old(chatAbomat), chatAbomat, ch, |chatAbort|)
      ensures rc != 0 ==> Advanced(chatAbort, old(chatAbomat), chatAbomat, ch, rc - 4)
      ensures rc != 0 ==> Fires(chatAbort[rc - 4], old(chatAbomat)[rc - 4], ch)
      // With the fired string's counter, and the later ones, not moved, the counters may no longer be sound.
      ensures Counters(chatAbort, chatAbomat) && (rc != 0 ==> chatAbomat[rc - 4] == |chatAbort[rc - 4]| - 1)
      ensures rc != 0 && Sound(chatAbort, old(chatAbomat), text) ==>
        (Sound(chatAbort, chatAbomat, text + [ch]) <==> StillTrue(chatAbort, chatAbomat, ch, rc - 4))
    {
      ghost var mats := chatAbomat;
      var i := 0;
      while i < |chatAbort|
        invariant 0 <= i <= |chatAbort|
        invariant Advanced(chatAbort, mats, chatAbomat, ch, i)
      {
        var m := chatAbomat[i];
        if ch == chatAbort[i][m] {
          m := (m + 1) % 256;
          if CharAt(chatAbort[i], m) == '\0' {
            CountersKept(chatAbort, mats, chatAbomat, ch, i);
            FiredCounter(chatAbort, mats, chatAbomat, ch, i);
            if Sound(chatAbort, mats, text) {
              SoundAfterAbort(chatAbort, mats, chatAbomat, text, ch, i);
            }
            return i + 4;
          }
        } else {
          m := if ch == chatAbort[i][0] then 1 else 0;
        }
        chatAbomat := chatAbomat[i := m];
        i := i + 1;
      }
      CountersKept(chatAbort, mats, chatAbomat, ch, i);
      return 0;
    }

    /** Returns 0 when `str` was received, 3 on a timeout, and 4 plus the index of an abort string
        that was received. */
    method ExpectString(str: string) returns (rc: nat)
      requires CString(str) && Counters(chatAbort, chatAbomat)
      modifies this`line, this`heard, this`chatAbomat
      ensures old(heard) <= heard && old(heard) + old(line) == heard + line
      ensures rc == 0 || rc == 3 || 4 <= rc < 4 + |chatAbort|
      // The expected string is recognised exactly as Match says, unless an abort string comes first.
      ensures rc == 0 ==> Match(str, 0, old(line)) == At(|heard| - |old(heard)|) && EndsWith(heard[|old(heard)|..], str)
      ensures rc == 3 ==> Match(str, 0, old(line)) == Never && line == []
      // Abort strings: sound across calls as long as the counters are, and complete for recognisable strings.
      ensures
        var sound, sharp := old(Sound(chatAbort, chatAbomat, heard)), old(Sharp(chatAbort, chatAbomat, heard));
        if rc < 4 then Watching(chatAbort, chatAbomat, heard, |old(heard)|, sound, sharp)
        else Aborted(chatAbort, chatAbomat, heard, |old(heard)|, sound, sharp, rc - 4)
      // The whole call, whatever the counters.
      ensures Call(rc, chatAbomat, line) == Expect(str, chatAbort, old(chatAbomat), 0, old(line))
    {
      hide Match, EndsWith, Watching, Aborted, Sharp, Sound, Advanced, Fires, Expect, CountersAfter;
      CallStarts(str, chatAbort, chatAbomat, heard, line);
      ghost var sound, sharp := Sound(chatAbort, chatAbomat, heard), Sharp(chatAbort, chatAbomat, heard);
      SharpIsSound(chatAbort, chatAbomat, heard);
      ghost var line0 := line;
      var cp := 0;
      while CharAt(str, cp) != '\0'
        invariant InProgress(str, old(heard), line0, heard, line, cp)
        invariant Counters(chatAbort, chatAbomat) && Watching(chatAbort, chatAbomat, heard, |old(heard)|, sound, sharp)
        invariant Expect(str, chatAbort, chatAbomat, cp, line) == Expect(str, chatAbort, old(chatAbomat), 0, line0)
        decreases |line|
      {
        ghost var text, rest, cp0, mats := heard, line, cp, chatAbomat;
        ExpectStep(str, chatAbort, mats, cp0, rest);
        var ch, count := Read();
        if count != 1 {
          MatchEnds(str, cp);
          return 3;
        }
        ProgressStep(str, old(heard), line0, text, rest, cp);
        if ch != CharAt(str, cp) {
          cp := 0;
        }
        if ch == CharAt(str, cp) {
          cp := cp + 1;
        }
        rc := CheckAborts(ch, text);
        ghost var n := if rc == 0 then |chatAbort| else rc - 4;
        WatchingStep(chatAbort, mats, chatAbomat, text, ch, |old(heard)|, sound, sharp, n);
        AdvancedIs(chatAbort, mats, chatAbomat, ch, n);
        if rc != 0 {
          return;
        }
      }
      MatchEnds(str, cp);
      ExpectStep(str, chatAbort, chatAbomat, cp, line);
      assert str[..cp] == str;
      return 0;
    }
  }

  lemma SharpIsSound(aborts: seq<string>, abomat: seq<nat>, text: string)
    ensures Sharp(aborts, abomat, text) ==> Sound(aborts, abomat, text)
    ensures Sound(aborts, abomat, text) ==> Counters(aborts, abomat)
  {
  }

  lemma ExpectStep(str: string, aborts: seq<string>, abomat: seq<nat>, cp: nat, line: string)
    requires cp <= |str| && Counters(aborts, abomat)
    ensures cp == |str| ==> Expect(str, aborts, abomat, cp, line) == Call(0, abomat, line)
    ensures cp < |str| && line == [] ==> Expect(str, aborts, abomat, cp, line) == Call(3, abomat, [])
    ensures cp < |str| && line != [] ==>
      var n := FirstFiring(aborts, abomat, line[0], 0);
      var after := CountersAfter(aborts, abomat, line[0], n);
      Expect(str, aborts, abomat, cp, line) ==
        if n < |aborts| then Call(n + 4, after, line[1..])
        else Expect(str, aborts, after, Step(str, cp, line[0]), line[1..])
  {
  }

  // ----- Long strings

  /** The 8-bit counter never gets to the end of a string of 256 or more characters: whatever is read, it is not
      reported. */
  lemma {:induction false} LongStringIgnored(str: string, aborts: seq<string>, abomat: seq<nat>, cp: nat, line: string,
      i: nat)
    requires cp <= |str| && Counters(aborts, abomat) && i < |aborts| && |aborts[i]| >= 256
    ensures Expect(str, aborts, abomat, cp, line).rc != i + 4
    decreases |line|
  {
    hide Step, AbortStep;
    if cp < |str| && line != [] {
      var n := FirstFiring(aborts, abomat, line[0], 0);
      NeverFires(aborts[i], abomat[i], line[0]);
      if n == |aborts| {
        LongStringIgnored(str, aborts, CountersAfter(aborts, abomat, line[0], n), Step(str, cp, line[0]), line[1..], i);
      }
    }
  }

  lemma NeverFires(p: string, m: nat, ch: char)
    requires CString(p) && |p| >= 256 && m < 256 && m < |p|
    ensures !Fires(p, m, ch)
  {
  }

  // ----- False reports

  /** Two calls in a row with any abort strings, both of which read the same character `z` first.  If the first one
      reports string `n`, the second one reports a string again, `n` or one before it.  If it reports `n` again it
      is right if and only if that string is made of `z` alone; one before it is reported rightly. */
  lemma ReportedAgain(str: string, aborts: seq<string>, abomat: seq<nat>, text: string, z: char, rest: string)
    requires str != [] && Sound(aborts, abomat, text) && FirstFiring(aborts, abomat, z, 0) < |aborts|
    ensures
      var n := FirstFiring(aborts, abomat, z, 0);
      var first := Expect(str, aborts, abomat, 0, [z, z] + rest);
      && first == Call(n + 4, CountersAfter(aborts, abomat, z, n), [z] + rest)
      && EndsWith(text + [z], aborts[n])
      && var again := FirstFiring(aborts, first.abomat, z, 0);
      && again <= n
      && Expect(str, aborts, first.abomat, 0, first.line)
        == Call(again + 4, CountersAfter(aborts, first.abomat, z, again), rest)
      && (EndsWith(text + [z] + [z], aborts[again]) <==> again < n || OnlyChar(aborts[n], z))
  {
    hide EndsWith, OnlyChar, AbortStep, Recognisable, Longest;
    var n := FirstFiring(aborts, abomat, z, 0);
    var after := CountersAfter(aborts, abomat, z, n);
    ReportsAt(str, aborts, abomat, z, [z] + rest);
    assert [z] + ([z] + rest) == [z, z] + rest;
    AbortStepFacts(aborts[n], text, abomat[n], z);
    var again := FirstFiring(aborts, after, z, 0);
    ReportsAt(str, aborts, after, z, rest);
    AbortStepFacts(aborts[again], text, abomat[again], z);
    if again < n {
      AbortStepFacts(aborts[again], text + [z], after[again], z);
    } else {
      EndsAgain(text + [z], aborts[n], z);
    }
  }

  lemma ReportsAt(str: string, aborts: seq<string>, abomat: seq<nat>, z: char, rest: string)
    requires str != [] && Counters(aborts, abomat) && FirstFiring(aborts, abomat, z, 0) < |aborts|
    ensures
      var n := FirstFiring(aborts, abomat, z, 0);
      Expect(str, aborts, abomat, 0, [z] + rest) == Call(n + 4, CountersAfter(aborts, abomat, z, n), rest)
  {
    hide FirstFiring, CountersAfter;
    var line := [z] + rest;
    assert line[0] == z && line[1..] == rest;
  }

  /** An instance from a fresh matcher: of the characters "ABB" the first call reads "AB" and reports it; the
      second reads one 'B' and reports "AB" again, although "ABB" does not end with it. */
  lemma StaleAfterAbort()
    ensures
      var first := Expect("Z", ["AB"], [0], 0, "ABB");
      && first == Call(4, [1], "B") && EndsWith("AB", "AB")
      && Expect("Z", ["AB"], first.abomat, 0, first.line) == Call(4, [1], "") && !EndsWith("ABB", "AB")
  {
    assert "ABB"[1..] == "BB" && "AB"[1..] == "B";
    assert FirstFiring(["AB"], [0], 'A', 0) == 1;
    assert CountersAfter(["AB"], [0], 'A', 1) == [1];
    assert Fires("AB", 1, 'B') && FirstFiring(["AB"], [1], 'B', 0) == 0;
    assert CountersAfter(["AB"], [1], 'B', 0) == [1];
    ReportsAt("Z", ["AB"], [1], 'B', "B");
    ReportsAt("Z", ["AB"], [1], 'B', "");
    assert ['B'] + "B" == "BB" && ['B'] + "" == "B";
  }
}
