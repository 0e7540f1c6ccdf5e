/**
 * The Python string operations both scripts rely on: substring search
 * (`p in s`), `str.split(sep)` with a non-empty separator, and `str.strip()`.
 * Each is a recursive function; the lemmas characterise it, and `Join` is the
 * reference inverse of `Split`.
 */
module Text {
  import opened Wrappers

  /** `p` occurs in `s` starting at index `i`. */
  predicate OccursAt(s: string, p: string, i: int) {
    0 <= i && i + |p| <= |s| && s[i..i + |p|] == p
  }

  /** The first index at or after `from` where `p` occurs in `s`. */
  function FindFrom(s: string, p: string, from: nat): (r: Option<nat>)
    requires from <= |s|
    ensures r.Some? ==> from <= r.value && r.value + |p| <= |s|
    decreases |s| - from
  {
    if from + |p| > |s| then None
    else if s[from..from + |p|] == p then Some(from)
    else FindFrom(s, p, from + 1)
  }

  /** The first index where `p` occurs in `s`: Python's `s.find(p)`, with None for -1. */
  function Find(s: string, p: string): (r: Option<nat>)
    ensures r.Some? ==> r.value + |p| <= |s|
  {
    FindFrom(s, p, 0)
  }

  /** Python's `p in s`. */
  predicate Contains(s: string, p: string) {
    Find(s, p).Some?
  }

  /** FindFrom reports an occurrence, and none is skipped before it. */
  lemma {:induction false} FindFromSpec(s: string, p: string, from: nat)
    requires from <= |s|
    ensures FindFrom(s, p, from).Some? ==> OccursAt(s, p, FindFrom(s, p, from).value)
    ensures FindFrom(s, p, from).Some? ==>
              forall j :: from <= j < FindFrom(s, p, from).value ==> !OccursAt(s, p, j)
    ensures FindFrom(s, p, from).None? ==> forall j :: from <= j ==> !OccursAt(s, p, j)
    decreases |s| - from
  {
    if from + |p| > |s| {
    } else if s[from..from + |p|] == p {
    } else {
      FindFromSpec(s, p, from + 1);
    }
  }

  /** Find reports the first occurrence, and None exactly when there is none. */
  lemma FindSpec(s: string, p: string)
    ensures Find(s, p).Some? ==> OccursAt(s, p, Find(s, p).value)
    ensures Find(s, p).Some? ==> forall j :: 0 <= j < Find(s, p).value ==> !OccursAt(s, p, j)
    ensures Find(s, p).None? ==> forall j :: !OccursAt(s, p, j)
  {
    FindFromSpec(s, p, 0);
  }

  /** `p in s` holds exactly when `p` occurs somewhere in `s`. */
  lemma ContainsIff(s: string, p: string)
    ensures Contains(s, p) <==> exists i :: OccursAt(s, p, i)
  {
    FindSpec(s, p);
  }

  /** An occurrence with none before it is the one Find reports. */
  lemma FindIs(s: string, p: string, i: nat)
    requires OccursAt(s, p, i)
    requires forall j :: 0 <= j < i ==> !OccursAt(s, p, j)
    ensures Find(s, p) == Some(i)
  {
    FindSpec(s, p);
  }

  /** A string without the character `c` does not contain the one-character string `[c]`. */
  lemma NotContainsChar(s: string, c: char)
    requires c !in s
    ensures !Contains(s, [c])
  {
    forall j | 0 <= j < |s| ensures !OccursAt(s, [c], j) {
      assert s[j..j + 1] == [s[j]];
    }
    FindSpec(s, [c]);
  }

  /** No occurrence of `sep` in the prefix that ends at its first occurrence. */
  lemma NoneBeforeFirst(s: string, sep: string, i: nat)
    requires |sep| > 0 && Find(s, sep) == Some(i)
    ensures !Contains(s[..i], sep)
  {
    FindSpec(s, sep);
    FindSpec(s[..i], sep);
    if Contains(s[..i], sep) {
      var j := Find(s[..i], sep).value;
      assert s[..i][j..j + |sep|] == s[j..j + |sep|];
      assert OccursAt(s, sep, j);
    }
  }

  /** Python's `sep.join(parts)`. */
  function Join(parts: seq<string>, sep: string): string
    requires |parts| >= 1
  {
    if |parts| == 1 then parts[0] else parts[0] + sep + Join(parts[1..], sep)
  }

  /**
   * Python's `s.split(sep)` for a non-empty separator: the pieces between the
   * non-overlapping occurrences of `sep`, scanned from the left.
   */
  function Split(s: string, sep: string): (r: seq<string>)
    requires |sep| > 0
    ensures |r| >= 1
    ensures |r| == 1 <==> !Contains(s, sep)
    decreases |s|
  {
    var f := Find(s, sep);
    if f.None? then [s]
    else [s[..f.value]] + Split(s[f.value + |sep|..], sep)
  }

  /** No piece of a split contains the separator. */
  lemma {:induction false} SplitPieces(s: string, sep: string)
    requires |sep| > 0
    ensures forall k :: 0 <= k < |Split(s, sep)| ==> !Contains(Split(s, sep)[k], sep)
    decreases |s|
  {
    var f := Find(s, sep);
    if f.Some? {
      var i := f.value;
      NoneBeforeFirst(s, sep, i);
      SplitPieces(s[i + |sep|..], sep);
    }
  }

  /** Three consecutive slices put back together give the sequence. */
  lemma Reassemble(s: string, i: nat, j: nat)
    requires i <= j <= |s|
    ensures s == s[..i] + s[i..j] + s[j..]
  {
  }

  /** Joining the pieces of a split with the same separator gives back the string. */
  lemma {:induction false} SplitJoin(s: string, sep: string)
    requires |sep| > 0
    ensures Join(Split(s, sep), sep) == s
    decreases |s|
  {
    var f := Find(s, sep);
    if f.Some? {
      var i := f.value;
      var rest := s[i + |sep|..];
      SplitJoin(rest, sep);
      var r := Split(s, sep);
      assert r[1..] == Split(rest, sep);
      FindSpec(s, sep);
      Reassemble(s, i, i + |sep|);
    }
  }

  /** Splitting at a first occurrence: the first piece, then the split of the rest. */
  lemma {:induction false} SplitAt(s: string, sep: string, i: nat)
    requires |sep| > 0 && Find(s, sep) == Some(i)
    ensures Split(s, sep) == [s[..i]] + Split(s[i + |sep|..], sep)
  {
  }

  /** The first piece of a split on one character ends at that character's first occurrence. */
  lemma SplitHead(v: string, c: char, t: string)
    requires c !in v
    requires t == [] || t[0] == c
    ensures Split(v + t, [c])[0] == v
  {
    var s := v + t;
    if t == [] {
      assert s == v;
      NotContainsChar(v, c);
    } else {
      forall j | 0 <= j < |v| ensures !OccursAt(s, [c], j) {
        assert s[j..j + 1] == [v[j]];
      }
      assert s[|v|..|v| + 1] == [c];
      FindIs(s, [c], |v|);
      assert s[..|v|] == v;
    }
  }

  /** An occurrence at `at` means the first occurrence is at or before it. */
  lemma FirstAtMost(s: string, p: string, at: nat)
    requires OccursAt(s, p, at)
    ensures Find(s, p).Some? && Find(s, p).value <= at
  {
    FindSpec(s, p);
  }

  /** The suffix after index `i` still ends with `c` followed by `e`. */
  lemma SuffixKeepsEnd(s: string, c: char, e: string, i: nat)
    requires |e| < |s| && s[|s| - |e| - 1] == c && s[|s| - |e|..] == e
    requires i < |s| - |e| - 1
    ensures |e| < |s[i + 1..]| && s[i + 1..][|s[i + 1..]| - |e| - 1] == c && s[i + 1..][|s[i + 1..]| - |e|..] == e
  {
    var rest := s[i + 1..];
    assert rest[|rest| - |e| - 1] == s[|s| - |e| - 1];
    assert rest[|rest| - |e|..] == s[|s| - |e|..];
  }

  /** The last piece of a split on one character is what follows its last occurrence. */
  lemma {:induction false} SplitLast(s: string, c: char, e: string)
    requires |e| < |s| && s[|s| - |e| - 1] == c && s[|s| - |e|..] == e && c !in e
    ensures Split(s, [c])[|Split(s, [c])| - 1] == e
    decreases |s|
  {
    var at := |s| - |e| - 1;
    assert s[at..at + 1] == [s[at]];
    FirstAtMost(s, [c], at);
    var i := Find(s, [c]).value;
    var rest := s[i + 1..];
    SplitAt(s, [c], i);
    var tail := Split(rest, [c]);
    assert Split(s, [c]) == [s[..i]] + tail;
    if i == at {
      assert rest == e;
      NotContainsChar(e, c);
      assert tail == [e];
    } else {
      SuffixKeepsEnd(s, c, e, i);
      SplitLast(rest, c, e);
    }
  }

  /**
   * The characters Python's `str.isspace()` accepts: the ASCII whitespace and
   * separators 0x09-0x0D and 0x1C-0x20, and the Unicode spaces and line and
   * paragraph separators.
   */
  predicate IsSpace(c: char) {
    ('\t' <= c <= '\r') || ('\U{1C}' <= c <= ' ') || c == '\U{85}' || c == '\U{A0}' ||
    c == '\U{1680}' || ('\U{2000}' <= c <= '\U{200A}') || c == '\U{2028}' || c == '\U{2029}' ||
    c == '\U{202F}' || c == '\U{205F}' || c == '\U{3000}'
  }

  predicate AllSpace(s: string) {
    forall k :: 0 <= k < |s| ==> IsSpace(s[k])
  }

  /** Neither end of `s` is whitespace. */
  predicate IsStripped(s: string) {
    s == [] || (!IsSpace(s[0]) && !IsSpace(s[|s| - 1]))
  }

  /** Python's `s.lstrip()`: the suffix left after dropping leading whitespace. */
  function TrimStart(s: string): (r: string)
    ensures |r| <= |s| && r == s[|s| - |r|..]
    ensures AllSpace(s[..|s| - |r|])
    ensures r == [] || !IsSpace(r[0])
    decreases |s|
  {
    if |s| > 0 && IsSpace(s[0]) then
      var r := TrimStart(s[1..]);
      assert s[1..][|s| - 1 - |r|..] == s[|s| - |r|..];
      assert s[..|s| - |r|] == [s[0]] + s[1..][..|s| - 1 - |r|];
      r
    else s
  }

  /** Python's `s.rstrip()`: the prefix left after dropping trailing whitespace. */
  function TrimEnd(s: string): (r: string)
    ensures |r| <= |s| && r == s[..|r|]
    ensures AllSpace(s[|r|..])
    ensures r == [] || !IsSpace(r[|r| - 1])
    decreases |s|
  {
    if |s| > 0 && IsSpace(s[|s| - 1]) then TrimEnd(s[..|s| - 1]) else s
  }

  /** The number of whitespace characters `s.strip()` removes from the front of `s`. */
  function LeadingSpace(s: string): (n: nat)
    ensures n <= |s|
  {
    |s| - |TrimStart(s)|
  }

  /**
   * Python's `s.strip()`: the slice of `s` that remains once the whitespace
   * at both ends is removed; everything removed is whitespace.
   */
  function Strip(s: string): (r: string)
    ensures IsStripped(r)
    ensures LeadingSpace(s) + |r| <= |s| && s[LeadingSpace(s)..LeadingSpace(s) + |r|] == r
    ensures AllSpace(s[..LeadingSpace(s)]) && AllSpace(s[LeadingSpace(s) + |r|..])
  {
    var t := TrimStart(s);
    var r := TrimEnd(t);
    var i := |s| - |t|;
    assert s[i..i + |r|] == r;
    assert s[i + |r|..] == t[|r|..];
    r
  }

  /** A string with no whitespace at either end is its own strip. */
  lemma StripStripped(s: string)
    requires IsStripped(s)
    ensures Strip(s) == s
  {
  }

  /** Stripping never introduces a character. */
  lemma StripKeeps(s: string, c: char)
    requires c !in s
    ensures c !in Strip(s)
  {
    var r := Strip(s);
    var i := LeadingSpace(s);
    forall k | 0 <= k < |r| ensures r[k] != c {
      assert r[k] == s[i + k];
    }
  }
}
