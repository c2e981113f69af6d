/** String primitives the tool leans on: Python's whitespace class (shared by
    `str.strip()` and the regular-expression class `\s`), `str.strip()`,
    `list.index`, and splitting / joining on a separator character. */
module Text {

  datatype Option<+T> = None | Some(value: T)

  /** Python's `str.isspace()` on one character; `\s` in a `str` pattern
      matches exactly this set too. */
  predicate IsSpace(c: char): (b: bool)
    ensures c == ' ' || c == '\t' || c == '\n' || c == '\r' ==> b
    ensures b ==> c != '|' && c != 'c' && !('0' <= c <= '9')
  {
    var n := c as int;
    || 0x09 <= n <= 0x0D || 0x1C <= n <= 0x20
    || n == 0x85 || n == 0xA0 || n == 0x1680
    || 0x2000 <= n <= 0x200A || n == 0x2028 || n == 0x2029
    || n == 0x202F || n == 0x205F || n == 0x3000
  }

  predicate AllSpace(s: string)
  {
    forall i :: 0 <= i < |s| ==> IsSpace(s[i])
  }

  /** Neither end of `s` is whitespace: what `strip()` leaves behind. */
  predicate Trimmed(s: string)
  {
    s == [] || (!IsSpace(s[0]) && !IsSpace(s[|s| - 1]))
  }

  /** Greedy `\s*` starting at `i`: the end of the maximal whitespace run. */
  function SkipSpace(s: string, i: nat): (j: nat)
    requires i <= |s|
    ensures i <= j <= |s|
    ensures forall k :: i <= k < j ==> IsSpace(s[k])
    ensures j == |s| || !IsSpace(s[j])
    decreases |s| - i
  {
    if i < |s| && IsSpace(s[i]) then SkipSpace(s, i + 1) else i
  }

  /** A whitespace run that ends at a non-space character is exactly what
      `SkipSpace` skips. */
  lemma SkipSpaceStopsAt(s: string, i: nat, j: nat)
    requires i <= j < |s|
    requires forall k :: i <= k < j ==> IsSpace(s[k])
    requires !IsSpace(s[j])
    ensures SkipSpace(s, i) == j
  {
  }

  /** Python's `str.lstrip()`: drops the leading whitespace run. */
  function StripLeft(s: string): string
    decreases |s|
  {
    if |s| > 0 && IsSpace(s[0]) then StripLeft(s[1..]) else s
  }

  /** Python's `str.rstrip()`: drops the trailing whitespace run. */
  function StripRight(s: string): string
    decreases |s|
  {
    if |s| > 0 && IsSpace(s[|s| - 1]) then StripRight(s[..|s| - 1]) else s
  }

  /** `lstrip()` removes a whitespace prefix and stops at a non-space. */
  lemma {:induction false} StripLeftRemovesSpace(s: string)
    ensures |StripLeft(s)| <= |s| && StripLeft(s) == s[|s| - |StripLeft(s)|..]
    ensures AllSpace(s[..|s| - |StripLeft(s)|])
    ensures StripLeft(s) == [] || !IsSpace(StripLeft(s)[0])
    decreases |s|
  {
    if |s| > 0 && IsSpace(s[0]) {
      StripLeftRemovesSpace(s[1..]);
      var n := |s| - |StripLeft(s)|;
      assert s[1..][..n - 1] == s[1..n];
      assert s[1..][n - 1..] == s[n..];
    }
  }

  /** `rstrip()` removes a whitespace suffix and stops at a non-space. */
  lemma {:induction false} StripRightRemovesSpace(s: string)
    ensures |StripRight(s)| <= |s| && StripRight(s) == s[..|StripRight(s)|]
    ensures AllSpace(s[|StripRight(s)|..])
    ensures StripRight(s) == [] || !IsSpace(StripRight(s)[|StripRight(s)| - 1])
    decreases |s|
  {
    if |s| > 0 && IsSpace(s[|s| - 1]) {
      var t := s[..|s| - 1];
      StripRightRemovesSpace(t);
      var n := |StripRight(t)|;
      assert t[..n] == s[..n];
      assert s[n..] == t[n..] + [s[|s| - 1]];
    }
  }

  /** Python's `str.strip()` with no argument. */
  function Strip(s: string): (r: string)
    ensures Trimmed(r)
    ensures |r| <= |s|
  {
    StripLeftRemovesSpace(s);
    StripRightRemovesSpace(StripLeft(s));
    StripRight(StripLeft(s))
  }

  /** `Strip(s)` is a slice of `s` with only whitespace on either side. */
  lemma StripIsSlice(s: string) returns (a: nat, b: nat)
    ensures a <= b <= |s| && Strip(s) == s[a..b]
    ensures AllSpace(s[..a]) && AllSpace(s[b..])
  {
    var t := StripLeft(s);
    StripLeftRemovesSpace(s);
    StripRightRemovesSpace(t);
    a := |s| - |t|;
    b := a + |StripRight(t)|;
    assert t == s[a..];
    assert t[|StripRight(t)|..] == s[b..];
    assert Strip(s) == StripRight(t) == t[..b - a] == s[a..b];
  }

  lemma {:induction false} StripLeftOfPadded(a: string, t: string)
    requires AllSpace(a)
    requires t == [] || !IsSpace(t[0])
    ensures StripLeft(a + t) == t
    decreases |a|
  {
    if a != [] {
      assert (a + t)[1..] == a[1..] + t;
      StripLeftOfPadded(a[1..], t);
    } else {
      assert a + t == t;
    }
  }

  lemma {:induction false} StripRightOfPadded(t: string, b: string)
    requires AllSpace(b)
    requires t == [] || !IsSpace(t[|t| - 1])
    ensures StripRight(t + b) == t
    decreases |b|
  {
    if b != [] {
      assert (t + b)[..|t + b| - 1] == t + b[..|b| - 1];
      StripRightOfPadded(t, b[..|b| - 1]);
    } else {
      assert t + b == t;
    }
  }

  /** `strip()` is characterised uniquely: a trimmed core between two
      whitespace runs is exactly what it returns. */
  lemma StripOfPadded(a: string, r: string, b: string)
    requires AllSpace(a) && AllSpace(b) && Trimmed(r)
    ensures Strip(a + r + b) == r
  {
    if r == [] {
      assert a + r + b == a + b;
      StripLeftRemovesSpace(a + b);
      assert AllSpace(a + b);
    } else {
      assert a + r + b == a + (r + b);
      StripLeftOfPadded(a, r + b);
      StripRightOfPadded(r, b);
    }
  }

  /** A trimmed string is its own strip. */
  lemma StripOfTrimmed(s: string)
    requires Trimmed(s)
    ensures Strip(s) == s
  {
    assert [] + s + [] == s;
    StripOfPadded([], s, []);
  }

  /** A trimmed string followed by one whitespace character strips back to
      the trimmed string. */
  lemma StripDropsFinalSpace(s: string)
    requires |s| > 0 && IsSpace(s[|s| - 1]) && Trimmed(s[..|s| - 1])
    ensures Strip(s) == s[..|s| - 1]
  {
    var r := s[..|s| - 1];
    assert s == [] + r + [s[|s| - 1]];
    StripOfPadded([], r, [s[|s| - 1]]);
  }

  lemma StripIdempotent(s: string)
    ensures Strip(Strip(s)) == Strip(s)
  {
    StripOfTrimmed(Strip(s));
  }

  lemma Regroup(a: string, s: string, b: string, i: nat, j: nat)
    requires i <= j <= |s|
    ensures a + s + b == (a + s[..i]) + s[i..j] + (s[j..] + b)
  {
    assert s == s[..i] + s[i..j] + s[j..];
  }

  lemma AllSpaceConcat(x: string, y: string)
    requires AllSpace(x) && AllSpace(y)
    ensures AllSpace(x + y)
  {
  }

  /** Whitespace glued to either end of a string does not change its strip. */
  lemma StripIgnoresPadding(a: string, s: string, b: string)
    requires AllSpace(a) && AllSpace(b)
    ensures Strip(a + s + b) == Strip(s)
  {
    var i, j := StripIsSlice(s);
    var core, x, y := s[i..j], a + s[..i], s[j..] + b;
    AllSpaceConcat(a, s[..i]);
    AllSpaceConcat(s[j..], b);
    Regroup(a, s, b, i, j);
    StripOfPadded(x, core, y);
  }

  /** Skipping a whitespace run before stripping changes nothing. */
  lemma StripSkipsSpace(s: string, i: nat, e: nat)
    requires i <= e <= |s|
    requires forall k :: i <= k < e ==> IsSpace(s[k])
    ensures Strip(s[e..]) == Strip(s[i..])
  {
    assert AllSpace(s[i..e]);
    assert s[i..] == s[i..e] + s[e..] + [];
    StripIgnoresPadding(s[i..e], s[e..], []);
  }

  /** Cutting a string inside a trailing whitespace run changes nothing
      once it is stripped. */
  lemma StripDropsTrailingSpace(s: string, p: nat, k: nat)
    requires p <= k <= |s|
    requires forall i :: p <= i < k ==> IsSpace(s[i])
    ensures Strip(s[..k]) == Strip(s[..p])
  {
    assert AllSpace(s[p..k]);
    assert s[..k] == [] + s[..p] + s[p..k];
    StripIgnoresPadding([], s[..p], s[p..k]);
  }

  /** Python's `list.index` / `str.index` when present: the first position
      holding `x`, or `|xs|` when there is none. */
  function FirstIndexOf<T(==)>(xs: seq<T>, x: T): (i: nat)
    ensures i <= |xs|
    ensures i < |xs| ==> xs[i] == x
    ensures forall j :: 0 <= j < i ==> xs[j] != x
    decreases |xs|
  {
    if xs == [] then 0
    else if xs[0] == x then 0
    else 1 + FirstIndexOf(xs[1..], x)
  }

  /** Python's `split(sep)`: every piece between separators, empty ones
      included, so there is always one more piece than separators. */
  function Split(s: string, sep: char): (parts: seq<string>)
    ensures |parts| >= 1
    decreases |s|
  {
    var k := FirstIndexOf(s, sep);
    if k == |s| then [s] else [s[..k]] + Split(s[k + 1..], sep)
  }

  /** Python's `sep.join(parts)`. */
  function Join(parts: seq<string>, sep: char): string
    decreases |parts|
  {
    if |parts| == 0 then ""
    else if |parts| == 1 then parts[0]
    else parts[0] + [sep] + Join(parts[1..], sep)
  }

  lemma JoinCons(head: string, rest: seq<string>, sep: char)
    requires |rest| >= 1
    ensures Join([head] + rest, sep) == head + [sep] + Join(rest, sep)
  {
    assert ([head] + rest)[1..] == rest;
  }

  /** No piece of a split holds the separator. */
  lemma {:induction false} SplitPartsLackSep(s: string, sep: char)
    ensures forall i :: 0 <= i < |Split(s, sep)| ==> sep !in Split(s, sep)[i]
    decreases |s|
  {
    var k := FirstIndexOf(s, sep);
    if k < |s| {
      SplitAtFirst(s, sep);
      SplitPartsLackSep(s[k + 1..], sep);
      var parts := Split(s, sep);
      forall i | 0 <= i < |parts| ensures sep !in parts[i] {
        if i == 0 {
          assert forall j :: 0 <= j < k ==> s[..k][j] == s[j];
        } else {
          assert parts[i] == Split(s[k + 1..], sep)[i - 1];
        }
      }
    } else {
      assert forall j :: 0 <= j < |s| ==> s[j] != sep;
    }
  }

  /** `split` cuts at the first separator and goes on with the rest. */
  lemma SplitAtFirst(s: string, sep: char)
    requires FirstIndexOf(s, sep) < |s|
    ensures Split(s, sep) == [s[..FirstIndexOf(s, sep)]] + Split(s[FirstIndexOf(s, sep) + 1..], sep)
  {
  }

  lemma {:induction false} JoinSplit(s: string, sep: char)
    ensures Join(Split(s, sep), sep) == s
    decreases |s|
  {
    var k := FirstIndexOf(s, sep);
    if k < |s| {
      var head, tail := s[..k], s[k + 1..];
      SplitAtFirst(s, sep);
      JoinCons(head, Split(tail, sep), sep);
      JoinSplit(tail, sep);
      assert head + [sep] + tail == s;
    }
  }

  /** The first separator of `head + [sep] + rest` is the one after `head`
      when `head` has none. */
  lemma FirstIndexAfterHead(head: string, rest: string, sep: char)
    requires sep !in head
    ensures FirstIndexOf(head + [sep] + rest, sep) == |head|
  {
    var s := head + [sep] + rest;
    assert s[|head|] == sep;
    assert forall j :: 0 <= j < |head| ==> s[j] == head[j];
  }

  lemma {:induction false} SplitJoin(parts: seq<string>, sep: char)
    requires |parts| >= 1
    requires forall i :: 0 <= i < |parts| ==> sep !in parts[i]
    ensures Split(Join(parts, sep), sep) == parts
    decreases |parts|
  {
    if |parts| > 1 {
      var head, tail := parts[0], parts[1..];
      assert parts == [head] + tail;
      JoinCons(head, tail, sep);
      var rest := Join(tail, sep);
      var s := head + [sep] + rest;
      FirstIndexAfterHead(head, rest, sep);
      SplitAtFirst(s, sep);
      assert s[..|head|] == head && s[|head| + 1..] == rest;
      SplitJoin(tail, sep);
    } else {
      assert FirstIndexOf(parts[0], sep) == |parts[0]|;
    }
  }
}
