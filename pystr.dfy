/** The Python `str` operations the scripts use, each defined once: `lower`, `strip`,
    `rstrip(c)`, `startswith`, `endswith`, substring `in`, `find`, `rfind`, `split`,
    `split(sep, 1)`, `rsplit(sep, 1)`, `sep.join` and `replace` (of all occurrences). */
module PyStr {
  import opened Wrappers

  /** `c.isspace()`: the characters `str.strip()` removes. */
  predicate IsSpace(c: char) {
    c == ' ' || ('\t' <= c <= '\r') || ('\U{1c}' <= c <= '\U{1f}') || c == '\U{85}' || c == '\U{a0}'
    || c == '\U{1680}' || ('\U{2000}' <= c <= '\U{200a}') || c == '\U{2028}' || c == '\U{2029}'
    || c == '\U{202f}' || c == '\U{205f}' || c == '\U{3000}'
  }

  predicate IsDigit(c: char) { '0' <= c <= '9' }

  predicate AllDigits(s: string) { forall i :: 0 <= i < |s| ==> IsDigit(s[i]) }

  /** The value of a string of decimal digits, most significant first. */
  function DigitsValue(s: string): nat
    requires AllDigits(s)
    decreases |s|
  {
    if s == [] then 0 else DigitsValue(s[..|s| - 1]) * 10 + (s[|s| - 1] as int - '0' as int)
  }

  lemma {:induction false} DigitsValueSnoc(s: string, c: char)
    requires AllDigits(s) && IsDigit(c)
    ensures DigitsValue(s + [c]) == DigitsValue(s) * 10 + (c as int - '0' as int)
  {
    assert (s + [c])[..|s|] == s;
  }

  function LowerChar(c: char): char {
    if 'A' <= c <= 'Z' then (c as int + 32) as char else c
  }

  /** `s.lower()` on the ASCII letters. */
  function Lower(s: string): string {
    seq(|s|, i requires 0 <= i < |s| => LowerChar(s[i]))
  }

  predicate StartsWith(s: string, p: string) { |p| <= |s| && s[..|p|] == p }

  predicate EndsWith(s: string, p: string) { |p| <= |s| && s[|s| - |p|..] == p }

  /** `t` occurs in `s` starting at index `j`. */
  predicate OccursAt(s: string, t: string, j: int) {
    0 <= j && j + |t| <= |s| && s[j..j + |t|] == t
  }

  lemma {:induction false} OccursShift(s: string, t: string, j: int)
    requires |s| > 0 && 0 <= j
    ensures OccursAt(s, t, j + 1) <==> OccursAt(s[1..], t, j)
  {
    if j + 1 + |t| <= |s| {
      assert s[1..][j..j + |t|] == s[j + 1..j + 1 + |t|];
    }
  }

  lemma {:induction false} OccursShiftAll(s: string, t: string)
    requires |s| > 0
    ensures forall j :: 1 <= j ==> (OccursAt(s, t, j) <==> OccursAt(s[1..], t, j - 1))
  {
    forall j | 1 <= j ensures OccursAt(s, t, j) <==> OccursAt(s[1..], t, j - 1) {
      OccursShift(s, t, j - 1);
    }
  }

  lemma {:induction false} OccursInPrefix(s: string, t: string, n: int, j: int)
    requires 0 <= n <= |s|
    ensures OccursAt(s[..n], t, j) <==> OccursAt(s, t, j) && j + |t| <= n
  {
    if 0 <= j && j + |t| <= n {
      assert s[..n][j..j + |t|] == s[j..j + |t|];
    }
  }

  lemma {:induction false} OccursInSuffix(s: string, t: string, n: int, j: int)
    requires 0 <= n <= |s| && 0 <= j
    ensures OccursAt(s[n..], t, j) <==> OccursAt(s, t, n + j)
  {
    if n + j + |t| <= |s| {
      assert s[n..][j..j + |t|] == s[n + j..n + j + |t|];
    }
  }

  /** `s.find(t)`: the first index where `t` occurs, or `None` for -1. */
  function IndexOf(s: string, t: string): (r: Option<nat>)
    ensures r.Some? ==> OccursAt(s, t, r.value)
    ensures forall j :: (r.None? || j < r.value) ==> !OccursAt(s, t, j)
    decreases |s|
  {
    if |s| < |t| then None
    else if s[..|t|] == t then Some(0)
    else
      var r := IndexOf(s[1..], t);
      assert !OccursAt(s, t, 0) by { assert s[0..|t|] == s[..|t|]; }
      OccursShiftAll(s, t);
      match r
      case None => None
      case Some(k) => Some(k + 1)
  }

  /** `t in s`. */
  predicate Contains(s: string, t: string) { IndexOf(s, t).Some? }

  lemma {:induction false} ContainsIff(s: string, t: string)
    ensures Contains(s, t) <==> exists j :: OccursAt(s, t, j)
  {
    if Contains(s, t) {
      assert OccursAt(s, t, IndexOf(s, t).value);
    }
  }

  /** `s.rfind(t)`: the last index where `t` occurs, or `None` for -1. */
  function LastIndexOf(s: string, t: string): (r: Option<nat>)
    ensures r.Some? ==> OccursAt(s, t, r.value)
    ensures forall j :: (r.None? || j > r.value) ==> !OccursAt(s, t, j)
    decreases |s|
  {
    if |s| < |t| then None
    else if OccursAt(s, t, |s| - |t|) then Some(|s| - |t|)
    else
      var r := LastIndexOf(s[..|s| - 1], t);
      assert forall j :: OccursAt(s, t, j) ==> j == |s| - |t| || OccursAt(s[..|s| - 1], t, j) by {
        forall j | OccursAt(s, t, j) { OccursInPrefix(s, t, |s| - 1, j); }
      }
      r
  }

  /** `sep.join(parts)`. */
  function Join(parts: seq<string>, sep: string): string
    decreases |parts|
  {
    if parts == [] then "" else if |parts| == 1 then parts[0] else parts[0] + sep + Join(parts[1..], sep)
  }

  /** `s.split(sep)` for a non-empty separator: the pieces between the occurrences of `sep`,
      found from the left. Joining them with `sep` gives back `s`. */
  function Split(s: string, sep: string): (parts: seq<string>)
    requires |sep| > 0
    ensures |parts| >= 1
    decreases |s|
  {
    match IndexOf(s, sep)
    case None => [s]
    case Some(i) => [s[..i]] + Split(s[i + |sep|..], sep)
  }

  /** Joining the pieces of `s.split(sep)` with `sep` gives back `s`. */
  lemma {:induction false} SplitJoin(s: string, sep: string)
    requires |sep| > 0
    ensures Join(Split(s, sep), sep) == s
    decreases |s|
  {
    match IndexOf(s, sep)
    case None =>
    case Some(i) =>
      var tail := s[i + |sep|..];
      var rest := Split(tail, sep);
      SplitJoin(tail, sep);
      SplitFirst(s, sep, i);
      var parts := [s[..i]] + rest;
      assert parts[1..] == rest;
      assert Join(parts, sep) == s[..i] + sep + Join(rest, sep);
      assert s[i..i + |sep|] == sep;
      assert s == s[..i] + s[i..i + |sep|] + tail;
  }

  /** No piece of `s.split(sep)` contains `sep`. */
  lemma {:induction false} SplitPiecesLackSep(s: string, sep: string)
    requires |sep| > 0
    ensures forall i :: 0 <= i < |Split(s, sep)| ==> !Contains(Split(s, sep)[i], sep)
    decreases |s|
  {
    match IndexOf(s, sep)
    case None =>
    case Some(i) =>
      SplitPiecesLackSep(s[i + |sep|..], sep);
      assert !Contains(s[..i], sep) by {
        forall j | OccursAt(s[..i], sep, j) ensures false { OccursInPrefix(s, sep, i, j); }
      }
      SplitFirst(s, sep, i);
  }

  /** `s.split(sep, 1)`. */
  function SplitOnce(s: string, sep: string): (parts: seq<string>)
    requires |sep| > 0
    ensures 1 <= |parts| <= 2 && !Contains(parts[0], sep)
    ensures Join(parts, sep) == s
  {
    match IndexOf(s, sep)
    case None => [s]
    case Some(i) =>
      assert !Contains(s[..i], sep) by {
        forall j | OccursAt(s[..i], sep, j) ensures false { OccursInPrefix(s, sep, i, j); }
      }
      assert s[..i] + sep + s[i + |sep|..] == s;
      [s[..i], s[i + |sep|..]]
  }

  /** `s.rsplit(sep, 1)`. */
  function RSplitOnce(s: string, sep: string): (parts: seq<string>)
    requires |sep| > 0
    ensures 1 <= |parts| <= 2 && !Contains(parts[|parts| - 1], sep)
    ensures |parts| == 2 <==> Contains(s, sep)
    ensures Join(parts, sep) == s
  {
    match LastIndexOf(s, sep)
    case None => [s]
    case Some(i) =>
      var last := s[i + |sep|..];
      assert !Contains(last, sep) by {
        forall j | OccursAt(last, sep, j) ensures false { OccursInSuffix(s, sep, i + |sep|, j); }
      }
      assert s[..i] + sep + s[i + |sep|..] == s;
      [s[..i], s[i + |sep|..]]
  }

  /** Number of leading whitespace characters. */
  function LeadingSpaces(s: string): (k: nat)
    ensures k <= |s|
    ensures forall i :: 0 <= i < k ==> IsSpace(s[i])
    ensures k == |s| || !IsSpace(s[k])
    decreases |s|
  {
    if s != [] && IsSpace(s[0]) then 1 + LeadingSpaces(s[1..]) else 0
  }

  /** Number of trailing whitespace characters. */
  function TrailingSpaces(s: string): (k: nat)
    ensures k <= |s|
    ensures forall i :: |s| - k <= i < |s| ==> IsSpace(s[i])
    ensures k == |s| || !IsSpace(s[|s| - 1 - k])
    decreases |s|
  {
    if s != [] && IsSpace(s[|s| - 1]) then 1 + TrailingSpaces(s[..|s| - 1]) else 0
  }

  /** `s.strip()`: `s` without its leading and trailing whitespace. */
  function Strip(s: string): (r: string)
    ensures r == [] || (!IsSpace(r[0]) && !IsSpace(r[|r| - 1]))
    ensures exists a :: OccursAt(s, r, a)
  {
    var a := LeadingSpaces(s);
    if a == |s| then assert OccursAt(s, "", 0); "" else
      var r := s[a..|s| - TrailingSpaces(s)];
      assert OccursAt(s, r, a);
      r
  }

  lemma {:induction false} StripUnchanged(s: string)
    requires s == [] || (!IsSpace(s[0]) && !IsSpace(s[|s| - 1]))
    ensures Strip(s) == s
  {
    if s != [] {
      assert LeadingSpaces(s) == 0;
      assert TrailingSpaces(s) == 0;
    }
  }

  /** `s.rstrip(c)` for one character `c`. */
  function RStripChar(s: string, c: char): (r: string)
    ensures StartsWith(s, r)
    ensures r == [] || r[|r| - 1] != c
    ensures forall i :: |r| <= i < |s| ==> s[i] == c
    decreases |s|
  {
    if s != [] && s[|s| - 1] == c then RStripChar(s[..|s| - 1], c) else s
  }

  /** `s.replace(pat, rep)`: every occurrence of `pat`, found from the left without overlap,
      replaced by `rep`. */
  function Replace(s: string, pat: string, rep: string): string
    requires |pat| > 0
    decreases |s|
  {
    if |s| < |pat| then s
    else if s[..|pat|] == pat then rep + Replace(s[|pat|..], pat, rep)
    else [s[0]] + Replace(s[1..], pat, rep)
  }

  // ----- lemmas about Split and Join -----

  lemma {:induction false} SplitNoSep(s: string, sep: string)
    requires |sep| > 0 && !Contains(s, sep)
    ensures Split(s, sep) == [s]
  {
  }

  /** Splitting `a + sep + b` when `sep` first occurs right after `a`. */
  lemma {:induction false} SplitAt(a: string, sep: string, b: string)
    requires |sep| > 0
    requires forall j :: 0 <= j < |a| ==> !OccursAt(a + sep + b, sep, j)
    ensures Split(a + sep + b, sep) == [a] + Split(b, sep)
  {
    var s := a + sep + b;
    IndexOfAfter(a, sep, b);
    assert s[..|a|] == a;
    assert s[|a| + |sep|..] == b;
  }

  /** A one-character separator that does not occur in `a` first occurs right after `a`. */
  lemma {:induction false} CharAbsentNoOccur(a: string, c: char, b: string)
    requires c !in a
    ensures forall j :: 0 <= j < |a| ==> !OccursAt(a + [c] + b, [c], j)
  {
    forall j | 0 <= j < |a| ensures !OccursAt(a + [c] + b, [c], j) {
      assert (a + [c] + b)[j..j + 1][0] == a[j];
    }
  }

  /** A text in which the first character of `t` never appears does not contain `t`. */
  lemma {:induction false} HeadAbsentNotContained(s: string, t: string)
    requires |t| > 0 && t[0] !in s
    ensures !Contains(s, t)
  {
    forall j | 0 <= j ensures !OccursAt(s, t, j) {
      if j + |t| <= |s| {
        assert s[j..j + |t|][0] == s[j];
      }
    }
  }

  /** `s.find(sep)` when `sep` does not start anywhere inside `a`. */
  lemma {:induction false} IndexOfAfter(a: string, sep: string, b: string)
    requires |sep| > 0
    requires forall j :: 0 <= j < |a| ==> !OccursAt(a + sep + b, sep, j)
    ensures IndexOf(a + sep + b, sep) == Some(|a|)
  {
    var s := a + sep + b;
    assert s[|a|..|a| + |sep|] == sep;
    assert OccursAt(s, sep, |a|);
  }

  lemma {:induction false} CharAbsentNotContained(s: string, c: char)
    requires c !in s
    ensures !Contains(s, [c])
  {
    forall j | 0 <= j ensures !OccursAt(s, [c], j) {
      if j + 1 <= |s| {
        assert s[j..j + 1][0] == s[j];
      }
    }
  }

  /** No occurrence of `[c]` from index `k` on: `c` is not in `s[k..]`. */
  lemma {:induction false} CharAbsentFrom(s: string, c: char, k: nat)
    requires k <= |s| && forall j :: k <= j ==> !OccursAt(s, [c], j)
    ensures c !in s[k..]
  {
    forall i | 0 <= i < |s| - k ensures s[k..][i] != c {
      assert s[k + i..k + i + 1] == [s[k + i]];
      assert !OccursAt(s, [c], k + i);
    }
  }

  lemma {:induction false} NotContainedCharAbsent(s: string, c: char)
    requires !Contains(s, [c])
    ensures c !in s
  {
    CharAbsentFrom(s, c, 0);
    assert s[0..] == s;
  }

  lemma {:induction false} CharContained(s: string, c: char)
    requires c in s
    ensures Contains(s, [c])
  {
    var j :| 0 <= j < |s| && s[j] == c;
    assert s[j..j + 1] == [c];
    assert OccursAt(s, [c], j);
  }

  lemma {:induction false} SplitCharAbsent(s: string, c: char)
    requires c !in s
    ensures Split(s, [c]) == [s]
  {
    CharAbsentNotContained(s, c);
  }

  /** Splitting on a one-character separator distributes over a separator placed between
      two strings. */
  lemma {:induction false} SplitCharCat(a: string, c: char, b: string)
    ensures Split(a + [c] + b, [c]) == Split(a, [c]) + Split(b, [c])
    decreases |a|
  {
    match IndexOf(a, [c])
    case None =>
      NotContainedCharAbsent(a, c);
      CharAbsentNoOccur(a, c, b);
      SplitAt(a, [c], b);
    case Some(i) =>
      var a2 := a[i + 1..];
      SplitCharCat(a2, c, b);
      SplitCharCatStep(a, c, b, i);
  }

  lemma {:induction false} SplitCharCatStep(a: string, c: char, b: string, i: nat)
    requires IndexOf(a, [c]) == Some(i)
    requires Split(a[i + 1..] + [c] + b, [c]) == Split(a[i + 1..], [c]) + Split(b, [c])
    ensures Split(a + [c] + b, [c]) == Split(a, [c]) + Split(b, [c])
  {
    SplitCatHead(a, c, b, i);
    SplitFirst(a, [c], i);
    ConsAssoc(a[..i], Split(a[i + 1..], [c]), Split(b, [c]));
  }

  lemma {:induction false} ConsAssoc<T>(x: T, p: seq<T>, q: seq<T>)
    ensures [x] + (p + q) == ([x] + p) + q
  {
  }

  /** The first separator of `a + [c] + b` is the first one of `a`, when `a` has one. */
  lemma {:induction false} SplitCatHead(a: string, c: char, b: string, i: nat)
    requires IndexOf(a, [c]) == Some(i)
    ensures Split(a + [c] + b, [c]) == [a[..i]] + Split(a[i + 1..] + [c] + b, [c])
  {
    CatAssoc(a, [c], b);
    IndexOfExtend(a, [c] + b, [c]);
    SplitFirst(a + [c] + b, [c], i);
    SlicesOfCat(a, [c] + b, i);
    CatAssoc(a[i + 1..], [c], b);
  }

  lemma {:induction false} CatAssoc(a: string, b: string, c: string)
    ensures a + b + c == a + (b + c)
  {
  }

  lemma {:induction false} SlicesOfCat(a: string, x: string, i: nat)
    requires i < |a|
    ensures (a + x)[..i] == a[..i] && (a + x)[i + 1..] == a[i + 1..] + x
  {
  }

  lemma {:induction false} SplitFirst(s: string, sep: string, i: nat)
    requires |sep| > 0 && IndexOf(s, sep) == Some(i)
    ensures Split(s, sep) == [s[..i]] + Split(s[i + |sep|..], sep)
  {
  }

  /** Appending text cannot move an occurrence that has already been found. */
  lemma {:induction false} IndexOfExtend(a: string, x: string, t: string)
    requires IndexOf(a, t).Some?
    ensures IndexOf(a + x, t) == IndexOf(a, t)
  {
    var i := IndexOf(a, t).value;
    OccursInPrefix(a + x, t, |a|, i);
    assert (a + x)[..|a|] == a;
    forall j | j < i ensures !OccursAt(a + x, t, j) {
      OccursInPrefix(a + x, t, |a|, j);
    }
  }

  /** Joining after prefixing the first piece with `x`. */
  lemma {:induction false} JoinConsHead(x: string, parts: seq<string>, sep: string)
    requires |parts| >= 1
    ensures Join([x + parts[0]] + parts[1..], sep) == x + Join(parts, sep)
  {
    var q := [x + parts[0]] + parts[1..];
    if |parts| > 1 {
      assert q[1..] == parts[1..];
    }
  }

  /** One step of `IndexOf` when `s` does not start with `t`. */
  lemma {:induction false} IndexOfStep(s: string, t: string)
    requires |t| > 0 && |s| > 0 && !StartsWith(s, t)
    ensures IndexOf(s, t) == match IndexOf(s[1..], t) case None => None case Some(k) => Some(k + 1)
  {
    if |s| < |t| {
      assert IndexOf(s[1..], t).None?;
    }
  }

  /** One step of `Split` when `s` does not start with `sep`. */
  lemma {:induction false} SplitStep(s: string, sep: string)
    requires |sep| > 0 && |s| > 0 && !StartsWith(s, sep)
    ensures Split(s, sep) == [[s[0]] + Split(s[1..], sep)[0]] + Split(s[1..], sep)[1..]
  {
    IndexOfStep(s, sep);
    match IndexOf(s[1..], sep)
    case None => SplitStepNone(s, sep);
    case Some(k) => SplitStepSome(s, sep, k);
  }

  lemma {:induction false} SplitStepNone(s: string, sep: string)
    requires |sep| > 0 && |s| > 0 && IndexOf(s, sep).None? && IndexOf(s[1..], sep).None?
    ensures Split(s, sep) == [[s[0]] + Split(s[1..], sep)[0]] + Split(s[1..], sep)[1..]
  {
    SplitNoSep(s[1..], sep);
    SplitNoSep(s, sep);
    assert [s[0]] + s[1..] == s;
  }

  lemma {:induction false} SplitStepSome(s: string, sep: string, k: nat)
    requires |sep| > 0 && |s| > 0 && IndexOf(s[1..], sep) == Some(k) && IndexOf(s, sep) == Some(k + 1)
    ensures Split(s, sep) == [[s[0]] + Split(s[1..], sep)[0]] + Split(s[1..], sep)[1..]
  {
    var u := s[1..];
    SplitFirst(u, sep, k);
    SplitFirst(s, sep, k + 1);
    assert u[k + |sep|..] == s[k + 1 + |sep|..];
    assert [s[0]] + u[..k] == s[..k + 1];
  }


  /** The last piece of a join of two or more pieces follows the last separator. */
  lemma {:induction false} JoinLast(parts: seq<string>, sep: string)
    requires |parts| >= 2
    ensures Join(parts, sep) == Join(parts[..|parts| - 1], sep) + sep + parts[|parts| - 1]
    decreases |parts|
  {
    if |parts| > 2 {
      var rest := parts[1..];
      JoinLast(rest, sep);
      assert rest[..|rest| - 1] == parts[..|parts| - 1][1..];
      assert rest[|rest| - 1] == parts[|parts| - 1];
    } else {
      assert parts[..1] == [parts[0]];
    }
  }

  lemma {:induction false} JoinEndsWithLast(parts: seq<string>, sep: string, s: string)
    requires |parts| >= 2 && Join(parts, sep) == s
    ensures EndsWith(s, sep + parts[|parts| - 1])
  {
    JoinLast(parts, sep);
    var pre, tail := Join(parts[..|parts| - 1], sep), sep + parts[|parts| - 1];
    assert s == pre + tail;
    assert (pre + tail)[|pre + tail| - |tail|..] == tail;
  }

  /** A string split into two or more pieces ends with the separator and the last piece. */
  lemma {:induction false} SplitLast(s: string, sep: string)
    requires |sep| > 0 && |Split(s, sep)| >= 2
    ensures EndsWith(s, sep + Split(s, sep)[|Split(s, sep)| - 1])
  {
    SplitJoin(s, sep);
    JoinEndsWithLast(Split(s, sep), sep, s);
  }

  /** The first piece of `s.split(sep)` is all of `s` or is followed in `s` by `sep`. */
  lemma {:induction false} SplitHead(s: string, sep: string)
    requires |sep| > 0
    ensures Split(s, sep)[0] == s || StartsWith(s, Split(s, sep)[0] + sep)
    ensures !Contains(Split(s, sep)[0], sep)
  {
    SplitPiecesLackSep(s, sep);
    match IndexOf(s, sep)
    case None =>
    case Some(i) =>
      assert Split(s, sep)[0] == s[..i];
      assert s[..i + |sep|] == s[..i] + sep;
  }

  // ----- lemmas about Replace -----

  /** `s.replace(pat, rep) == rep.join(s.split(pat))`: the two Python definitions agree. */
  lemma {:induction false} ReplaceIsSplitJoin(s: string, pat: string, rep: string)
    requires |pat| > 0
    ensures Replace(s, pat, rep) == Join(Split(s, pat), rep)
    decreases |s|
  {
    if |s| < |pat| {
      assert IndexOf(s, pat).None?;
    } else if s[..|pat|] == pat {
      ReplaceIsSplitJoin(s[|pat|..], pat, rep);
      SplitLeadingSep(s, pat, rep);
    } else {
      SplitStep(s, pat);
      ReplaceIsSplitJoin(s[1..], pat, rep);
      JoinConsHead([s[0]], Split(s[1..], pat), rep);
    }
  }

  /** Joining the pieces of a string that starts with the separator. */
  lemma {:induction false} SplitLeadingSep(s: string, pat: string, rep: string)
    requires |pat| > 0 && StartsWith(s, pat)
    ensures Join(Split(s, pat), rep) == rep + Join(Split(s[|pat|..], pat), rep)
  {
    assert OccursAt(s, pat, 0);
    assert IndexOf(s, pat) == Some(0);
    var rest := Split(s[|pat|..], pat);
    assert Split(s, pat) == [""] + rest;
    JoinEmptyHead(rest, rep);
  }

  lemma {:induction false} JoinEmptyHead(rest: seq<string>, sep: string)
    requires |rest| >= 1
    ensures Join([""] + rest, sep) == sep + Join(rest, sep)
  {
    assert ([""] + rest)[1..] == rest;
  }

  lemma {:induction false} ReplaceAbsent(s: string, pat: string, rep: string)
    requires |pat| > 0 && !Contains(s, pat)
    ensures Replace(s, pat, rep) == s
  {
    ReplaceIsSplitJoin(s, pat, rep);
    SplitNoSep(s, pat);
  }

  lemma {:induction false} ReplaceWhole(s: string, pat: string, rep: string)
    requires |pat| > 0
    ensures Replace(pat + s, pat, rep) == rep + Replace(s, pat, rep)
  {
    assert (pat + s)[..|pat|] == pat;
    assert (pat + s)[|pat|..] == s;
  }

  lemma {:induction false} ReplaceCons(c: char, s: string, pat: string, rep: string)
    requires |pat| > 0 && c != pat[0]
    ensures Replace([c] + s, pat, rep) == [c] + Replace(s, pat, rep)
  {
    var t := [c] + s;
    assert t[1..] == s;
    if |t| >= |pat| {
      assert t[..|pat|][0] == c;
    }
  }

  /** No occurrence of `pat` can start inside `y` when `y` lacks `pat`'s first character. */
  lemma {:induction false} ReplaceKeepHead(y: string, t: string, pat: string, rep: string)
    requires |pat| > 0 && pat[0] !in y
    ensures Replace(y + t, pat, rep) == y + Replace(t, pat, rep)
    decreases |y|
  {
    if y != [] {
      assert y + t == [y[0]] + (y[1..] + t);
      ReplaceCons(y[0], y[1..] + t, pat, rep);
      ReplaceKeepHead(y[1..], t, pat, rep);
      assert [y[0]] + (y[1..] + Replace(t, pat, rep)) == y + Replace(t, pat, rep);
    } else {
      assert y + t == t;
    }
  }

  /** A character that does not occur in `pat` cannot be part of an occurrence: the text on
      either side of it is replaced on its own. */
  lemma {:induction false} ReplaceAroundChar(a: string, c: char, b: string, pat: string, rep: string)
    requires |pat| > 0 && c !in pat
    ensures Replace(a + [c] + b, pat, rep) == Replace(a, pat, rep) + [c] + Replace(b, pat, rep)
    decreases |a|
  {
    var s := a + [c] + b;
    if a == [] {
      assert s == [c] + b;
      ReplaceCons(c, b, pat, rep);
    } else if StartsWith(a, pat) {
      var t := a[|pat|..];
      ReplaceAroundChar(t, c, b, pat, rep);
      ReplaceAroundPat(a, c, b, pat, rep);
    } else if |s| < |pat| {
      assert Replace(a, pat, rep) == a;
      assert Replace(b, pat, rep) == b;
    } else {
      var t := a[1..];
      ReplaceAroundChar(t, c, b, pat, rep);
      ReplaceAroundOther(a, c, b, pat, rep);
    }
  }

  lemma {:induction false} ReplaceAroundPat(a: string, c: char, b: string, pat: string, rep: string)
    requires |pat| > 0 && StartsWith(a, pat)
    requires var t := a[|pat|..];
      Replace(t + [c] + b, pat, rep) == Replace(t, pat, rep) + [c] + Replace(b, pat, rep)
    ensures Replace(a + [c] + b, pat, rep) == Replace(a, pat, rep) + [c] + Replace(b, pat, rep)
  {
    var s, t := a + [c] + b, a[|pat|..];
    assert s[..|pat|] == pat;
    assert s[|pat|..] == t + [c] + b;
    var x, y := Replace(t, pat, rep), Replace(b, pat, rep);
    assert Replace(s, pat, rep) == rep + (x + [c] + y);
    assert Replace(a, pat, rep) == rep + x;
    assert rep + (x + [c] + y) == (rep + x) + [c] + y;
  }

  lemma {:induction false} ReplaceAroundOther(a: string, c: char, b: string, pat: string, rep: string)
    requires |pat| > 0 && c !in pat && a != [] && !StartsWith(a, pat) && |a| + 1 + |b| >= |pat|
    requires var t := a[1..];
      Replace(t + [c] + b, pat, rep) == Replace(t, pat, rep) + [c] + Replace(b, pat, rep)
    ensures Replace(a + [c] + b, pat, rep) == Replace(a, pat, rep) + [c] + Replace(b, pat, rep)
  {
    var s, t := a + [c] + b, a[1..];
    assert s[..|pat|] != pat by {
      if |a| >= |pat| {
        assert s[..|pat|] == a[..|pat|];
      } else {
        assert s[..|pat|][|a|] == c;
      }
    }
    var x, y := Replace(t, pat, rep), Replace(b, pat, rep);
    assert Replace(s, pat, rep) == [a[0]] + (x + [c] + y) by {
      assert s[1..] == t + [c] + b;
    }
    assert Replace(a, pat, rep) == [a[0]] + x by {
      if |a| < |pat| {
        assert Replace(a, pat, rep) == a;
        assert x == t;
        assert a == [a[0]] + t;
      }
    }
    ConsAssoc(a[0], x, [c] + y);
    CatAssoc(x, [c], y);
    CatAssoc([a[0]] + x, [c], y);
  }

  /** Replacing a pattern that starts after a head free of its first character: only the
      pattern at the end is replaced. */
  lemma {:induction false} ReplaceSuffix(stem: string, pat: string, rep: string)
    requires |pat| > 0 && pat[0] !in stem
    ensures Replace(stem + pat, pat, rep) == stem + rep
  {
    ReplaceKeepHead(stem, pat, pat, rep);
    ReplaceWhole("", pat, rep);
    assert pat + "" == pat;
    assert rep + "" == rep;
  }

  /** The last piece of a split on a character lacks it and ends the text after one. */
  lemma {:induction false} LastPieceChar(s: string, c: char)
    requires |Split(s, [c])| >= 2
    ensures var last := Split(s, [c])[|Split(s, [c])| - 1]; c !in last && EndsWith(s, [c] + last)
  {
    SplitLast(s, [c]);
    SplitPiecesLackSep(s, [c]);
    var last := Split(s, [c])[|Split(s, [c])| - 1];
    NotContainedCharAbsent(last, c);
  }

  /** The first piece of a split on a character lacks it and starts the text. */
  lemma {:induction false} HeadPieceChar(s: string, c: char)
    ensures var head := Split(s, [c])[0]; c !in head && (head == s || StartsWith(s, head + [c]))
  {
    SplitHead(s, [c]);
    var head := Split(s, [c])[0];
    NotContainedCharAbsent(head, c);
  }
}
