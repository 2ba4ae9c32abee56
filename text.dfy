/** The few Python 2 string operations the definition grammar is built from:
    `strip()`, `split(c)`, `split(c, 1)`, `split(None, 2)` and the slice `[1:-1]`.
    The source works on Python 2 byte strings; each `char` here stands for one byte. */
module Text {
  import opened Wrappers

  /** The bytes Python 2 treats as whitespace in `strip()` and `split()`:
      space, and tab, line feed, vertical tab, form feed and carriage return (codes 9 to 13). */
  predicate IsSpace(c: char) {
    c == ' ' || '\t' <= c <= '\r'
  }

  /** `s.lstrip()`: drops the longest all-whitespace prefix. */
  function TrimLeft(s: string): (r: string)
    ensures |r| <= |s| && r == s[|s| - |r|..]
    ensures r == [] || !IsSpace(r[0])
  {
    if |s| > 0 && IsSpace(s[0]) then TrimLeft(s[1..]) else s
  }

  /** `s.rstrip()`: drops the longest all-whitespace suffix. */
  function TrimRight(s: string): (r: string)
    ensures |r| <= |s| && r == s[..|r|]
    ensures r == [] || !IsSpace(r[|r| - 1])
  {
    if |s| > 0 && IsSpace(s[|s| - 1]) then TrimRight(s[..|s| - 1]) else s
  }

  /** What `lstrip()` removes is whitespace only. */
  lemma {:induction false} TrimLeftSpaces(s: string)
    ensures forall k :: 0 <= k < |s| - |TrimLeft(s)| ==> IsSpace(s[k])
  {
    if |s| > 0 && IsSpace(s[0]) {
      var t := s[1..];
      TrimLeftSpaces(t);
      forall k | 0 <= k < |s| - |TrimLeft(s)|
        ensures IsSpace(s[k])
      {
        if k > 0 {
          assert s[k] == t[k - 1];
        }
      }
    }
  }

  /** What `rstrip()` removes is whitespace only. */
  lemma {:induction false} TrimRightSpaces(s: string)
    ensures forall k :: |TrimRight(s)| <= k < |s| ==> IsSpace(s[k])
  {
    if |s| > 0 && IsSpace(s[|s| - 1]) {
      var t := s[..|s| - 1];
      TrimRightSpaces(t);
      forall k | |TrimRight(s)| <= k < |s|
        ensures IsSpace(s[k])
      {
        if k < |s| - 1 {
          assert s[k] == t[k];
        }
      }
    }
  }

  /** `s.strip()`: the text between the leading and the trailing whitespace. */
  function Strip(s: string): (r: string)
    ensures |r| <= |s|
    ensures r == [] || (!IsSpace(r[0]) && !IsSpace(r[|r| - 1]))
  {
    TrimRight(TrimLeft(s))
  }

  /** `strip()` adds no character: a character absent from `s` is absent from `s.strip()`. */
  lemma StripKeepsOut(s: string, c: char)
    requires c !in s
    ensures c !in Strip(s)
  {
  }

  /** A string with nothing for `strip()` to remove is its own `strip()`. */
  lemma StripUnspaced(s: string)
    requires s == [] || (!IsSpace(s[0]) && !IsSpace(s[|s| - 1]))
    ensures Strip(s) == s
  {
  }

  /** `lstrip()` removes exactly a whitespace prefix: `a + t` with `a` all whitespace and `t`
      not starting with whitespace strips to `t`. */
  lemma {:induction false} TrimLeftUnique(a: string, t: string)
    requires forall k :: 0 <= k < |a| ==> IsSpace(a[k])
    requires t == [] || !IsSpace(t[0])
    ensures TrimLeft(a + t) == t
    decreases |a|
  {
    if a != [] {
      assert (a + t)[1..] == a[1..] + t;
      TrimLeftUnique(a[1..], t);
    } else {
      assert a + t == t;
    }
  }

  /** `rstrip()` removes exactly a whitespace suffix. */
  lemma {:induction false} TrimRightUnique(t: string, b: string)
    requires forall k :: 0 <= k < |b| ==> IsSpace(b[k])
    requires t == [] || !IsSpace(t[|t| - 1])
    ensures TrimRight(t + b) == t
    decreases |b|
  {
    if b != [] {
      assert (t + b)[..|t + b| - 1] == t + b[..|b| - 1];
      TrimRightUnique(t, b[..|b| - 1]);
    } else {
      assert t + b == t;
    }
  }

  /** An all-whitespace string strips to the empty string. */
  lemma StripSpaces(s: string)
    requires forall k :: 0 <= k < |s| ==> IsSpace(s[k])
    ensures Strip(s) == []
  {
    TrimLeftUnique(s, []);
    assert s + [] == s;
  }

  /** Stripping after `lstrip()` is plain stripping. */
  lemma StripTrimLeft(s: string)
    ensures Strip(TrimLeft(s)) == Strip(s)
  {
    TrimLeftUnique([], TrimLeft(s));
    assert [] + TrimLeft(s) == TrimLeft(s);
  }

  /** `lstrip()` removes a whitespace prefix and nothing else. */
  lemma LeftPart(s: string) returns (a: string)
    ensures s == a + TrimLeft(s)
    ensures forall k :: 0 <= k < |a| ==> IsSpace(a[k])
  {
    TrimLeftSpaces(s);
    a := s[..|s| - |TrimLeft(s)|];
  }

  /** `rstrip()` removes a whitespace suffix and nothing else. */
  lemma RightPart(s: string) returns (b: string)
    ensures s == TrimRight(s) + b
    ensures forall k :: 0 <= k < |b| ==> IsSpace(b[k])
  {
    TrimRightSpaces(s);
    b := s[|TrimRight(s)|..];
  }

  /** `strip()` removes a whitespace prefix and a whitespace suffix and nothing else. */
  lemma StripParts(s: string) returns (a: string, b: string)
    ensures s == a + Strip(s) + b
    ensures forall k :: 0 <= k < |a| ==> IsSpace(a[k])
    ensures forall k :: 0 <= k < |b| ==> IsSpace(b[k])
  {
    a := LeftPart(s);
    b := RightPart(TrimLeft(s));
    Associative(a, Strip(s), b);
  }

  /** Concatenation is associative. */
  lemma Associative(x: string, y: string, z: string)
    ensures x + (y + z) == x + y + z
  {
  }

  /** A prefix of an all-whitespace string is all whitespace. */
  lemma SpacesPrefix(s: string, n: nat)
    requires n <= |s|
    requires forall k :: 0 <= k < |s| ==> IsSpace(s[k])
    ensures forall k :: 0 <= k < n ==> IsSpace(s[..n][k])
  {
  }

  /** Two all-whitespace strings concatenate to an all-whitespace string. */
  lemma SpacesConcat(a: string, b: string)
    requires forall k :: 0 <= k < |a| ==> IsSpace(a[k])
    requires forall k :: 0 <= k < |b| ==> IsSpace(b[k])
    ensures forall k :: 0 <= k < |a + b| ==> IsSpace((a + b)[k])
  {
  }

  /** Stripping after `rstrip()` is plain stripping. */
  lemma StripTrimRight(s: string)
    ensures Strip(TrimRight(s)) == Strip(s)
  {
    if Strip(s) != [] {
      StripTrimRightKept(s);
    } else {
      StripTrimRightBlank(s);
    }
  }

  /** `rstrip()` keeps what `strip()` keeps and the whitespace before it. */
  lemma StripTrimRightKept(s: string)
    requires Strip(s) != []
    ensures Strip(TrimRight(s)) == Strip(s)
  {
    var a, b := StripParts(s);
    StrippedCore(a, Strip(s), b);
  }

  /** Whitespace around a stripped core: `rstrip()` drops the trailing part and `strip()`
      of what is left is the core. */
  lemma StrippedCore(a: string, u: string, b: string)
    requires u != [] && !IsSpace(u[0]) && !IsSpace(u[|u| - 1])
    requires forall k :: 0 <= k < |a| ==> IsSpace(a[k])
    requires forall k :: 0 <= k < |b| ==> IsSpace(b[k])
    ensures TrimRight(a + u + b) == a + u
    ensures Strip(a + u) == u
  {
    CoreEnd(a, u);
    TrimRightUnique(a + u, b);
    CoreStripped(a, u);
  }

  /** A non-empty core ends any whitespace put before it. */
  lemma CoreEnd(a: string, u: string)
    requires u != [] && !IsSpace(u[|u| - 1])
    ensures !IsSpace((a + u)[|a + u| - 1])
  {
    assert (a + u)[|a + u| - 1] == u[|u| - 1];
  }

  /** Whitespace before a core with nothing to strip strips to the core. */
  lemma CoreStripped(a: string, u: string)
    requires u != [] && !IsSpace(u[0]) && !IsSpace(u[|u| - 1])
    requires forall k :: 0 <= k < |a| ==> IsSpace(a[k])
    ensures Strip(a + u) == u
  {
    TrimLeftUnique(a, u);
    StripUnspaced(u);
  }

  /** A string that strips to nothing still strips to nothing after `rstrip()`. */
  lemma StripTrimRightBlank(s: string)
    requires Strip(s) == []
    ensures Strip(TrimRight(s)) == []
  {
    var a, b := StripParts(s);
    assert s == a + b;
    SpacesConcat(a, b);
    var r := TrimRight(s);
    SpacesPrefix(s, |r|);
    StripSpaces(r);
  }

  /** `strip()` applied to every piece. */
  function StripAll(r: seq<string>): (t: seq<string>)
    ensures |t| == |r|
    ensures forall k :: 0 <= k < |r| ==> t[k] == Strip(r[k])
  {
    if r == [] then [] else [Strip(r[0])] + StripAll(r[1..])
  }

  /** A string holding `c` is cut at its first `c`. */
  lemma CutAt(s: string, c: char) returns (x: string, z: string)
    requires c in s
    ensures s == x + [c] + z && c !in x
  {
    var i := Find(s, c);
    x, z := s[..i], s[i + 1..];
    assert s == x + [c] + z;
  }

  /** Whitespace before the first piece does not change that piece once stripped. */
  lemma StripAfterSpaces(a: string, x: string)
    requires forall k :: 0 <= k < |a| ==> IsSpace(a[k])
    requires x == [] || !IsSpace(x[0])
    ensures Strip(a + x) == Strip(x)
  {
    TrimLeftUnique(a, x);
    TrimLeftUnique([], x);
    assert [] + x == x;
  }

  /** `StripAll` of a split whose first piece is `x`. */
  lemma StripAllCons(x: string, r: seq<string>)
    ensures StripAll([x] + r) == [Strip(x)] + StripAll(r)
  {
  }

  /** A whitespace character is never a separator that is not whitespace. */
  lemma SpacesLackSeparator(a: string, c: char)
    requires !IsSpace(c)
    requires forall k :: 0 <= k < |a| ==> IsSpace(a[k])
    ensures c !in a
  {
  }

  /** Leading whitespace only reaches the first piece of a split on a non-whitespace
      separator, where `strip()` removes it again. */
  lemma SplitTrimLeft(s: string, c: char)
    requires !IsSpace(c)
    ensures StripAll(Split(TrimLeft(s), c)) == StripAll(Split(s, c))
  {
    var t := TrimLeft(s);
    var a := LeftPart(s);
    SpacesLackSeparator(a, c);
    if c in t {
      var x, z := CutAt(t, c);
      assert s == a + x + [c] + z by {
        Associative(a, x + [c], z);
        Associative(a, x, [c]);
      }
      SplitTrimLeftCut(a, x, c, z);
    } else {
      SplitTrimLeftWhole(a, t, c);
    }
  }

  /** The case of `SplitTrimLeft` where the separator does not occur. */
  lemma SplitTrimLeftWhole(a: string, t: string, c: char)
    requires c !in a && c !in t && t == TrimLeft(a + t)
    ensures StripAll(Split(t, c)) == StripAll(Split(a + t, c))
  {
    assert c !in a + t;
    assert Split(t, c) == [t];
    assert Split(a + t, c) == [a + t];
    StripTrimLeft(a + t);
    assert StripAll([t]) == [Strip(t)];
    assert StripAll([a + t]) == [Strip(a + t)];
  }

  /** The case of `SplitTrimLeft` where the separator occurs. */
  lemma SplitTrimLeftCut(a: string, x: string, c: char, z: string)
    requires c !in a && c !in x
    requires forall k :: 0 <= k < |a| ==> IsSpace(a[k])
    requires x == [] || !IsSpace(x[0])
    ensures StripAll(Split(x + [c] + z, c)) == StripAll(Split(a + x + [c] + z, c))
  {
    SplitAtFirst(x, c, z);
    SplitAtFirst(a + x, c, z);
    StripAllCons(x, Split(z, c));
    StripAllCons(a + x, Split(z, c));
    StripAfterSpaces(a, x);
  }

  /** `rstrip()` of a string holding a non-whitespace `c` only touches the text after the
      first `c`. */
  lemma TrimRightAfterCut(x: string, c: char, z: string)
    requires !IsSpace(c)
    ensures TrimRight(x + [c] + z) == x + [c] + TrimRight(z)
  {
    var b := RightPart(z);
    Associative(x + [c], TrimRight(z), b);
    TrimRightUnique(x + [c] + TrimRight(z), b);
  }

  /** Trailing whitespace only reaches the last piece of a split on a non-whitespace
      separator, where `strip()` removes it again. */
  lemma {:induction false} SplitTrimRight(s: string, c: char)
    requires !IsSpace(c)
    ensures StripAll(Split(TrimRight(s), c)) == StripAll(Split(s, c))
    decreases |s|
  {
    if c in s {
      var x, z := CutAt(s, c);
      TrimRightAfterCut(x, c, z);
      SplitAtFirst(x, c, z);
      SplitAtFirst(x, c, TrimRight(z));
      SplitTrimRight(z, c);
      StripAllCons(x, Split(z, c));
      StripAllCons(x, Split(TrimRight(z), c));
    } else {
      StripTrimRight(s);
    }
  }

  /** Stripping a string before splitting it on a non-whitespace separator changes no
      piece once the pieces are stripped. */
  lemma SplitStrip(s: string, c: char)
    requires !IsSpace(c)
    ensures StripAll(Split(Strip(s), c)) == StripAll(Split(s, c))
  {
    SplitTrimRight(TrimLeft(s), c);
    SplitTrimLeft(s, c);
  }

  /** A string starting with a non-whitespace character keeps it under `strip()`. */
  lemma StripKeepsFirst(s: string)
    requires s != [] && !IsSpace(s[0])
    ensures Strip(s) != [] && Strip(s)[0] == s[0]
  {
    TrimLeftUnique([], s);
    assert [] + s == s;
    var b := RightPart(s);
    assert s[0] == (TrimRight(s) + b)[0];
  }

  /** Whether `s` starts with the character `c` (Python's `s[0] == c` once `s` is known non-empty). */
  predicate StartsWith(s: string, c: char) {
    |s| > 0 && s[0] == c
  }

  /** `s.find(c)`, except that a missing `c` gives `|s|` rather than -1. */
  function Find(s: string, c: char): (i: nat)
    ensures i <= |s|
    ensures i < |s| <==> c in s
    ensures i < |s| ==> s[i] == c
    ensures c !in s[..i]
  {
    if |s| == 0 then 0
    else if s[0] == c then 0
    else
      assert s == [s[0]] + s[1..];
      1 + Find(s[1..], c)
  }

  /** `s.split(c)`: every piece between occurrences of `c`, in order. */
  function Split(s: string, c: char): (r: seq<string>)
    ensures |r| >= 1
    ensures r[0] == s[..Find(s, c)]
    ensures c !in s ==> r == [s]
    decreases |s|
  {
    var i := Find(s, c);
    if i == |s| then [s] else [s[..i]] + Split(s[i + 1..], c)
  }

  /** Splitting at the first separator: the text before it is the first piece. */
  lemma SplitAtFirst(x: string, c: char, y: string)
    requires c !in x
    ensures Split(x + [c] + y, c) == [x] + Split(y, c)
  {
    var s := x + [c] + y;
    assert s[..|x|] == x;
    assert s[|x|] == c;
    assert s[|x| + 1..] == y;
  }

  /** `sep.join(r)`, the inverse of `split`. */
  function Join(r: seq<string>, sep: char): string
    requires |r| >= 1
  {
    if |r| == 1 then r[0] else r[0] + [sep] + Join(r[1..], sep)
  }

  /** `split` loses nothing: joining its pieces gives back the string. */
  lemma {:induction false} SplitJoin(s: string, c: char)
    ensures Join(Split(s, c), c) == s
    decreases |s|
  {
    var i := Find(s, c);
    if i < |s| {
      var rest := s[i + 1..];
      SplitJoin(rest, c);
      SplitNext(s, c);
      CutAround(s, i);
      JoinNext(s[..i], Split(rest, c), c);
    }
  }

  /** A string is what comes before position `i`, the character there, and what follows. */
  lemma CutAround(s: string, i: nat)
    requires i < |s|
    ensures s == s[..i] + [s[i]] + s[i + 1..]
  {
  }

  /** A string holding the separator splits into the text before its first occurrence and
      the pieces of the text after it. */
  lemma SplitNext(s: string, c: char)
    requires Find(s, c) < |s|
    ensures Split(s, c) == [s[..Find(s, c)]] + Split(s[Find(s, c) + 1..], c)
  {
  }

  /** Joining a first piece before other pieces puts the separator between them. */
  lemma JoinNext(x: string, r: seq<string>, sep: char)
    requires |r| >= 1
    ensures Join([x] + r, sep) == x + [sep] + Join(r, sep)
  {
    assert ([x] + r)[1..] == r;
  }

  /** No piece of `split` contains the separator. */
  lemma {:induction false} SplitPiecesLack(s: string, c: char)
    ensures forall k :: 0 <= k < |Split(s, c)| ==> c !in Split(s, c)[k]
    decreases |s|
  {
    var i := Find(s, c);
    if i < |s| {
      SplitPiecesLack(s[i + 1..], c);
      SplitNext(s, c);
    }
  }

  /** `s.split(c, 1)`: the text before the first `c` and, when there is one, the text after it. */
  function SplitOnce(s: string, c: char): (r: seq<string>)
    ensures 1 <= |r| <= 2
    ensures |r| == 2 <==> c in s
    ensures c !in r[0]
    ensures |r| == 1 ==> r[0] == s
    ensures |r| == 2 ==> s == r[0] + [c] + r[1]
  {
    var i := Find(s, c);
    if i == |s| then [s] else [s[..i], s[i + 1..]]
  }

  /** The slice `s[1:-1]`: drops the first and the last character without looking at them
      (empty when `s` has fewer than two characters). */
  function Inner(s: string): (r: string)
    ensures |s| >= 2 ==> s == [s[0]] + r + [s[|s| - 1]]
    ensures |s| < 2 ==> r == []
  {
    if |s| >= 2 then s[1..|s| - 1] else []
  }

  /** The index of the first non-whitespace byte of `s` at or after `i`. */
  function SkipSpaces(s: string, i: nat): (j: nat)
    requires i <= |s|
    ensures i <= j <= |s|
    ensures j == |s| || !IsSpace(s[j])
    decreases |s| - i
  {
    if i < |s| && IsSpace(s[i]) then SkipSpaces(s, i + 1) else i
  }

  /** The index of the first whitespace byte of `s` at or after `i` (`|s|` if none). */
  function SkipWord(s: string, i: nat): (j: nat)
    requires i <= |s|
    ensures i <= j <= |s|
    ensures j == |s| || IsSpace(s[j])
    decreases |s| - i
  {
    if i < |s| && !IsSpace(s[i]) then SkipWord(s, i + 1) else i
  }

  /** `SkipSpaces` passes over whitespace only. */
  lemma {:induction false} SkipSpacesSkipsSpaces(s: string, i: nat)
    requires i <= |s|
    ensures forall k :: i <= k < SkipSpaces(s, i) ==> IsSpace(s[k])
    decreases |s| - i
  {
    if i < |s| && IsSpace(s[i]) {
      SkipSpacesSkipsSpaces(s, i + 1);
    }
  }

  /** `SkipWord` passes over non-whitespace only. */
  lemma {:induction false} SkipWordSkipsWord(s: string, i: nat)
    requires i <= |s|
    ensures forall k :: i <= k < SkipWord(s, i) ==> !IsSpace(s[k])
    decreases |s| - i
  {
    if i < |s| && !IsSpace(s[i]) {
      SkipWordSkipsWord(s, i + 1);
    }
  }

  /** `line.split(None, 2)` when it yields three pieces: the first two whitespace-separated
      tokens and the rest of the line from the next non-whitespace byte on (trailing
      whitespace kept). None when there are fewer than three pieces. */
  function SplitHeader(line: string): (r: Option<(string, string, string)>)
    ensures r.Some? ==> r.value.0 != [] && r.value.1 != [] && r.value.2 != []
    ensures r.Some? ==> !IsSpace(r.value.2[0])
  {
    var i0 := SkipSpaces(line, 0);
    var i1 := SkipWord(line, i0);
    var i2 := SkipSpaces(line, i1);
    var i3 := SkipWord(line, i2);
    var i4 := SkipSpaces(line, i3);
    if i4 == |line| then None else Some((line[i0..i1], line[i2..i3], line[i4..]))
  }

  /** The two tokens `SplitHeader` returns hold no whitespace. */
  lemma SplitHeaderTokens(line: string)
    requires SplitHeader(line).Some?
    ensures forall k :: 0 <= k < |SplitHeader(line).value.0| ==> !IsSpace(SplitHeader(line).value.0[k])
    ensures forall k :: 0 <= k < |SplitHeader(line).value.1| ==> !IsSpace(SplitHeader(line).value.1[k])
  {
    var i0 := SkipSpaces(line, 0);
    var i1 := SkipWord(line, i0);
    var i2 := SkipSpaces(line, i1);
    SkipWordSkipsWord(line, i0);
    SkipWordSkipsWord(line, i2);
  }

  /** `s.split()` from position `i` on: the maximal runs of non-whitespace bytes, in order. */
  function TokensFrom(s: string, i: nat): (r: seq<string>)
    requires i <= |s|
    ensures forall k :: 0 <= k < |r| ==> r[k] != []
    ensures forall k, m :: 0 <= k < |r| && 0 <= m < |r[k]| ==> !IsSpace(r[k][m])
    decreases |s| - i
  {
    var k := SkipSpaces(s, i);
    if k == |s| then []
    else
      var j := SkipWord(s, k);
      SkipWordSkipsWord(s, k);
      [s[k..j]] + TokensFrom(s, j)
  }

  /** `s.split()`: the whitespace-separated tokens of `s`. */
  function Tokens(s: string): seq<string> {
    TokensFrom(s, 0)
  }

  /** Skipping whitespace in a suffix is skipping it in the whole string, shifted. */
  lemma {:induction false} SkipSpacesShift(s: string, i: nat, k: nat)
    requires i <= k <= |s|
    ensures SkipSpaces(s[i..], k - i) == SkipSpaces(s, k) - i
    decreases |s| - k
  {
    if k < |s| && IsSpace(s[k]) {
      assert s[i..][k - i] == s[k];
      SkipSpacesShift(s, i, k + 1);
    } else if k < |s| {
      assert s[i..][k - i] == s[k];
    }
  }

  /** Skipping a token in a suffix is skipping it in the whole string, shifted. */
  lemma {:induction false} SkipWordShift(s: string, i: nat, k: nat)
    requires i <= k <= |s|
    ensures SkipWord(s[i..], k - i) == SkipWord(s, k) - i
    decreases |s| - k
  {
    if k < |s| && !IsSpace(s[k]) {
      assert s[i..][k - i] == s[k];
      SkipWordShift(s, i, k + 1);
    } else if k < |s| {
      assert s[i..][k - i] == s[k];
    }
  }

  /** The tokens of a suffix are the tokens of the whole string from where it starts. */
  lemma {:induction false} TokensShift(s: string, i: nat, k: nat)
    requires i <= k <= |s|
    ensures TokensFrom(s[i..], k - i) == TokensFrom(s, k)
    decreases |s| - k
  {
    SkipSpacesShift(s, i, k);
    var m := SkipSpaces(s, k);
    if m < |s| {
      SkipWordShift(s, i, m);
      var j := SkipWord(s, m);
      SuffixSlice(s, i, m, j);
      TokensShift(s, i, j);
    }
  }

  /** A slice of a suffix is a slice of the whole string, shifted. */
  lemma SuffixSlice(s: string, i: nat, a: nat, b: nat)
    requires i <= a <= b <= |s|
    ensures s[i..][a - i..b - i] == s[a..b]
  {
  }

  /** `line.split(None, 2)` agrees with `line.split()`: it fails exactly when the line has
      fewer than three tokens; otherwise its first two pieces are the first two tokens and
      its third piece holds exactly the remaining tokens. */
  lemma SplitHeaderIsTokens(line: string)
    ensures SplitHeader(line).None? <==> |Tokens(line)| < 3
    ensures SplitHeader(line).Some? ==>
      && |Tokens(line)| >= 3
      && SplitHeader(line).value.0 == Tokens(line)[0]
      && SplitHeader(line).value.1 == Tokens(line)[1]
      && Tokens(SplitHeader(line).value.2) == Tokens(line)[2..]
  {
    var i0 := SkipSpaces(line, 0);
    var i1 := SkipWord(line, i0);
    var i2 := SkipSpaces(line, i1);
    var i3 := SkipWord(line, i2);
    var i4 := SkipSpaces(line, i3);
    if i0 < |line| {
      assert Tokens(line) == [line[i0..i1]] + TokensFrom(line, i1);
      if i2 < |line| {
        assert TokensFrom(line, i1) == [line[i2..i3]] + TokensFrom(line, i3);
        assert Tokens(line)[2..] == TokensFrom(line, i3);
        if i4 < |line| {
          assert SkipSpaces(line, i4) == i4;
          assert TokensFrom(line, i3) == TokensFrom(line, i4);
          TokensShift(line, i4, i4);
        }
      }
    }
  }

  /** `line.split(None, 2)` cuts the line at whitespace only: leading whitespace, the
      headword, whitespace, the tag, whitespace, and the rest of the line. */
  lemma SplitHeaderParts(line: string) returns (a: string, b: string, c: string)
    requires SplitHeader(line).Some?
    ensures line == a + SplitHeader(line).value.0 + b + SplitHeader(line).value.1 + c + SplitHeader(line).value.2
    ensures b != [] && c != []
    ensures forall k :: 0 <= k < |a| ==> IsSpace(a[k])
    ensures forall k :: 0 <= k < |b| ==> IsSpace(b[k])
    ensures forall k :: 0 <= k < |c| ==> IsSpace(c[k])
  {
    var i0 := SkipSpaces(line, 0);
    var i1 := SkipWord(line, i0);
    var i2 := SkipSpaces(line, i1);
    var i3 := SkipWord(line, i2);
    var i4 := SkipSpaces(line, i3);
    a := SpaceRun(line, 0);
    b := SpaceRun(line, i1);
    c := SpaceRun(line, i3);
    CutFive(line, i0, i1, i2, i3, i4);
  }

  /** The whitespace `SkipSpaces` passes over from `i`. */
  lemma SpaceRun(s: string, i: nat) returns (run: string)
    requires i <= |s|
    ensures run == s[i..SkipSpaces(s, i)]
    ensures forall k :: 0 <= k < |run| ==> IsSpace(run[k])
    ensures i < |s| && IsSpace(s[i]) ==> run != []
  {
    SkipSpacesSkipsSpaces(s, i);
    run := s[i..SkipSpaces(s, i)];
  }

  /** A string is the concatenation of its slices between increasing cut points. */
  lemma CutFive(s: string, i0: nat, i1: nat, i2: nat, i3: nat, i4: nat)
    requires i0 <= i1 <= i2 <= i3 <= i4 <= |s|
    ensures s == s[..i0] + s[i0..i1] + s[i1..i2] + s[i2..i3] + s[i3..i4] + s[i4..]
  {
  }
}
