/** The Python built-ins that the scripts use on strings and lists, restricted
    to what the scripts need: `''.join`, `sep.join`, `str.split`, `str.strip`,
    `str.lower` (on ASCII letters), `str.replace` and `str.count` of one
    character, `p in s`, list slicing, `int()` of a digit string and
    `f"{n}"` of a natural number. */
module Builtins {

  function Min(a: int, b: int): int { if a <= b then a else b }
  function Max(a: int, b: int): int { if a <= b then b else a }

  /** `''.join(xs)`. */
  function Concat(xs: seq<string>): string
  {
    if xs == [] then "" else xs[0] + Concat(xs[1..])
  }

  lemma {:induction false} ConcatAppend(a: seq<string>, b: seq<string>)
    ensures Concat(a + b) == Concat(a) + Concat(b)
  {
    if a == [] {
      assert a + b == b;
    } else {
      assert (a + b)[1..] == a[1..] + b;
      ConcatAppend(a[1..], b);
    }
  }

  /** The join of a contiguous run of pieces is a contiguous piece of the
      join of all of them. */
  lemma ConcatSlice(xs: seq<string>, i: nat, j: nat)
    requires i <= j <= |xs|
    ensures var p := |Concat(xs[..i])|;
      p + |Concat(xs[i..j])| <= |Concat(xs)|
      && Concat(xs[i..j]) == Concat(xs)[p..p + |Concat(xs[i..j])|]
  {
    assert xs == xs[..i] + xs[i..j] + xs[j..];
    ConcatAppend(xs[..i] + xs[i..j], xs[j..]);
    ConcatAppend(xs[..i], xs[i..j]);
  }

  /** Every piece of a concatenation occurs in it. */
  lemma ConcatElementOccurs(xs: seq<string>, k: nat)
    requires k < |xs|
    ensures OccursIn(xs[k], Concat(xs))
  {
    ConcatSlice(xs, k, k + 1);
    assert xs[k..k + 1] == [xs[k]];
    assert Concat([xs[k]]) == xs[k];
    assert OccursAt(xs[k], Concat(xs), |Concat(xs[..k])|);
  }

  /** `''.join(f(x) for x in xs)`, written as the loops of the scripts build
      it: one piece appended per element. */
  function ConcatMap<T>(xs: seq<T>, f: T -> string): string
    decreases |xs|
  {
    if xs == [] then "" else ConcatMap(xs[..|xs| - 1], f) + f(xs[|xs| - 1])
  }

  /** Mapping pieces over a concatenation of lists concatenates the results,
      so every element contributes its piece once, in order. */
  lemma {:induction false} ConcatMapAppend<T>(a: seq<T>, b: seq<T>, f: T -> string)
    ensures ConcatMap(a + b, f) == ConcatMap(a, f) + ConcatMap(b, f)
    decreases |b|
  {
    if b == [] {
      assert a + b == a;
    } else {
      assert (a + b)[..|a + b| - 1] == a + b[..|b| - 1];
      ConcatMapAppend(a, b[..|b| - 1], f);
    }
  }

  lemma Assoc<T>(a: seq<T>, b: seq<T>, c: seq<T>)
    ensures a + b + c == a + (b + c)
  {
  }

  lemma TakeDrop<T>(s: seq<T>, i: nat)
    requires i <= |s|
    ensures s[..i] + s[i..] == s
  {
  }

  lemma PrefixOfAppend<T>(a: seq<T>, b: seq<T>)
    ensures |a| <= |a + b| && (a + b)[..|a|] == a
  {
  }

  lemma SliceOfJoin<T>(a: seq<T>, b: seq<T>, c: seq<T>)
    ensures |a| + |b| <= |a + b + c|
    ensures (a + b + c)[..|a|] == a
    ensures (a + b + c)[|a|..|a| + |b|] == b
    ensures (a + b + c)[|a + b + c| - |c|..] == c
  {
  }

  /** The piece of the `k`-th element comes right after the pieces of the
      elements before it. */
  lemma ConcatMapAt<T>(xs: seq<T>, k: nat, f: T -> string)
    requires k < |xs|
    ensures ConcatMap(xs, f) == ConcatMap(xs[..k], f) + f(xs[k]) + ConcatMap(xs[k + 1..], f)
  {
    var front := xs[..k + 1];
    assert xs == front + xs[k + 1..];
    ConcatMapAppend(front, xs[k + 1..], f);
    assert front[..|front| - 1] == xs[..k];
  }

  /** Appending one more element appends exactly its piece. */
  lemma ConcatMapSnoc<T>(xs: seq<T>, i: nat, f: T -> string)
    requires i < |xs|
    ensures ConcatMap(xs[..i + 1], f) == ConcatMap(xs[..i], f) + f(xs[i])
  {
    assert xs[..i + 1][..i] == xs[..i];
  }

  /** `[f(i, x) for i, x in enumerate(xs, start=1)]`. */
  function Enumerate<T>(xs: seq<T>, f: (nat, T) -> string): (r: seq<string>)
    ensures |r| == |xs| && forall k :: 0 <= k < |xs| ==> r[k] == f(k + 1, xs[k])
  {
    seq(|xs|, k requires 0 <= k < |xs| => f(k + 1, xs[k]))
  }

  /** One more element adds its own piece at the end. */
  lemma EnumerateSnoc<T>(xs: seq<T>, i: nat, f: (nat, T) -> string)
    requires i < |xs|
    ensures Enumerate(xs[..i + 1], f) == Enumerate(xs[..i], f) + [f(i + 1, xs[i])]
  {
    var a := Enumerate(xs[..i + 1], f);
    var b := Enumerate(xs[..i], f) + [f(i + 1, xs[i])];
    forall k | 0 <= k < |a|
      ensures a[k] == b[k]
    {
      assert xs[..i + 1][k] == xs[k];
    }
  }

  /** `sep.join(xs)`. */
  function Join(sep: string, xs: seq<string>): string
  {
    if xs == [] then "" else if |xs| == 1 then xs[0] else xs[0] + sep + Join(sep, xs[1..])
  }

  /** Joining two non-empty lists puts exactly one separator between them. */
  lemma {:induction false} JoinAppend(sep: string, a: seq<string>, b: seq<string>)
    requires a != [] && b != []
    ensures Join(sep, a + b) == Join(sep, a) + sep + Join(sep, b)
  {
    if |a| == 1 {
      assert (a + b)[1..] == b;
    } else {
      assert (a + b)[1..] == a[1..] + b;
      JoinAppend(sep, a[1..], b);
    }
  }

  /** Every piece preceded by the separator. */
  function Prefixed(sep: string, xs: seq<string>): (r: seq<string>)
    ensures |r| == |xs| && forall k :: 0 <= k < |xs| ==> r[k] == sep + xs[k]
  {
    seq(|xs|, k requires 0 <= k < |xs| => sep + xs[k])
  }

  /** A join is its first piece followed by each later piece with the
      separator in front. */
  lemma {:induction false} JoinCons(sep: string, x: string, xs: seq<string>)
    ensures Join(sep, [x] + xs) == x + Concat(Prefixed(sep, xs))
    decreases |xs|
  {
    if xs == [] {
      assert [x] + xs == [x];
    } else {
      JoinCons(sep, xs[0], xs[1..]);
      assert ([x] + xs)[1..] == [xs[0]] + xs[1..];
      assert Prefixed(sep, xs)[1..] == Prefixed(sep, xs[1..]);
    }
  }

  /** Text at a known place inside `t` is at the shifted place inside
      `a + t + b`. */
  lemma OccursShift(x: string, a: string, t: string, b: string, i: int)
    requires OccursAt(x, t, i)
    ensures OccursAt(x, a + t + b, |a| + i)
  {
    var u := a + t + b;
    forall k | 0 <= k < |x|
      ensures u[|a| + i + k] == x[k]
    {
      assert x[k] == t[i..i + |x|][k] == t[i + k];
    }
    assert u[|a| + i..|a| + i + |x|] == x;
  }

  /** Every piece of a join occurs in it. */
  lemma JoinPieceOccurs(sep: string, xs: seq<string>, i: nat)
    requires i < |xs|
    ensures OccursIn(xs[i], Join(sep, xs))
  {
    assert xs == [xs[0]] + xs[1..];
    JoinCons(sep, xs[0], xs[1..]);
    var ps := Prefixed(sep, xs[1..]);
    if i == 0 {
      assert OccursAt(xs[0], xs[0], 0);
      OccursShift(xs[0], "", xs[0], Concat(ps), 0);
    } else {
      ConcatSlice(ps, i - 1, i);
      assert ps[i - 1..i] == [sep + xs[i]];
      assert Concat([sep + xs[i]]) == sep + xs[i];
      var off := |Concat(ps[..i - 1])|;
      assert OccursAt(sep + xs[i], Concat(ps), off);
      assert OccursAt(xs[i], Concat(ps), off + |sep|) by {
        assert Concat(ps)[off + |sep|..off + |sep| + |xs[i]|]
          == Concat(ps)[off..off + |sep + xs[i]|][|sep|..];
      }
      OccursShift(xs[i], xs[0], Concat(ps), "", off + |sep|);
      assert xs[0] + Concat(ps) + "" == Join(sep, xs);
    }
  }

  /** A character that is neither the separator nor in any piece is not in
      the join. */
  lemma {:induction false} NotInJoin(xs: seq<string>, c: char, x: char)
    requires x != c
    requires forall i :: 0 <= i < |xs| ==> x !in xs[i]
    ensures x !in Join([c], xs)
  {
    if |xs| > 1 {
      NotInJoin(xs[1..], c, x);
    }
  }

  /** `s.split(c)` for a one-character separator. */
  function Split(s: string, c: char): (parts: seq<string>)
    ensures |parts| >= 1
    ensures forall i :: 0 <= i < |parts| ==> c !in parts[i]
  {
    if s == [] then [""]
    else
      var rest := Split(s[1..], c);
      if s[0] == c then [""] + rest else [[s[0]] + rest[0]] + rest[1..]
  }

  /** Joining the pieces of a split with the separator gives back the string. */
  lemma {:induction false} JoinSplit(s: string, c: char)
    ensures Join([c], Split(s, c)) == s
  {
    if s != [] {
      var rest := Split(s[1..], c);
      JoinSplit(s[1..], c);
      if s[0] == c {
        assert Split(s, c) == [""] + rest;
        assert ([""] + rest)[1..] == rest;
      } else if |rest| > 1 {
        var parts := [[s[0]] + rest[0]] + rest[1..];
        assert parts[1..] == rest[1..];
      }
    }
  }

  /** A string without the separator is a single piece. */
  lemma {:induction false} SplitNoSeparator(s: string, c: char)
    requires c !in s
    ensures Split(s, c) == [s]
  {
    if s != [] {
      SplitNoSeparator(s[1..], c);
      assert [s[0]] + s[1..] == s;
    }
  }

  /** Splitting `a + c + b`, where `a` has no separator, gives `a` and then the
      pieces of `b`. */
  lemma {:induction false} SplitAtSeparator(a: string, c: char, b: string)
    requires c !in a
    ensures Split(a + [c] + b, c) == [a] + Split(b, c)
  {
    if a == [] {
      assert a + [c] + b == [c] + b;
      assert ([c] + b)[1..] == b;
    } else {
      assert (a + [c] + b)[1..] == a[1..] + [c] + b;
      SplitAtSeparator(a[1..], c, b);
      assert [a[0]] + a[1..] == a;
    }
  }

  /** Splitting `a + c + b` gives the pieces of `a`, then the pieces of `b`. */
  lemma {:induction false} SplitAround(a: string, c: char, b: string)
    ensures Split(a + [c] + b, c) == Split(a, c) + Split(b, c)
  {
    var s := a + [c] + b;
    if a == [] {
      assert s == [c] + b;
      assert s[1..] == b;
    } else {
      assert s[0] == a[0];
      assert s[1..] == a[1..] + [c] + b;
      SplitAround(a[1..], c, b);
      var ps := Split(a[1..], c);
      var rest := Split(s[1..], c);
      assert rest == ps + Split(b, c);
      if a[0] == c {
        assert Split(s, c) == [""] + rest;
        assert Split(a, c) == [""] + ps;
        Assoc([""], ps, Split(b, c));
      } else {
        assert Split(s, c) == [[a[0]] + rest[0]] + rest[1..];
        assert Split(a, c) == [[a[0]] + ps[0]] + ps[1..];
        assert rest[0] == ps[0];
        assert rest[1..] == ps[1..] + Split(b, c);
        Assoc([[a[0]] + ps[0]], ps[1..], Split(b, c));
      }
    }
  }

  /** Splitting a join of separator-free pieces gives back the pieces. */
  lemma {:induction false} SplitJoin(xs: seq<string>, c: char)
    requires xs != []
    requires forall i :: 0 <= i < |xs| ==> c !in xs[i]
    ensures Split(Join([c], xs), c) == xs
  {
    if |xs| == 1 {
      SplitNoSeparator(xs[0], c);
    } else {
      SplitJoin(xs[1..], c);
      SplitAtSeparator(xs[0], c, Join([c], xs[1..]));
      assert [xs[0]] + xs[1..] == xs;
    }
  }

  /** Appending separator-free text to a string lengthens its last piece. */
  lemma {:induction false} SplitAppendTail(s: string, t: string, c: char)
    requires c !in t
    ensures var ps := Split(s, c);
      Split(s + t, c) == ps[..|ps| - 1] + [ps[|ps| - 1] + t]
  {
    if s == [] {
      assert s + t == t;
      SplitNoSeparator(t, c);
    } else {
      assert (s + t)[1..] == s[1..] + t;
      SplitAppendTail(s[1..], t, c);
      var rest := Split(s[1..], c);
      if s[0] != c {
        assert [s[0]] + (rest[0] + t) == ([s[0]] + rest[0]) + t;
        if |rest| > 1 {
          assert (([s[0]] + rest[0]) + t) == [s[0]] + (rest[0] + t);
        }
      }
    }
  }

  /** The characters `str.isspace` accepts, and so `str.strip` removes. */
  predicate IsSpace(ch: char)
  {
    ('\t' <= ch <= '\r') || ('\U{1c}' <= ch <= ' ') || ch == '\U{85}' || ch == '\U{a0}'
    || ch == '\U{1680}' || ('\U{2000}' <= ch <= '\U{200a}') || ch == '\U{2028}'
    || ch == '\U{2029}' || ch == '\U{202f}' || ch == '\U{205f}' || ch == '\U{3000}'
  }

  predicate AllSpace(s: string)
  {
    forall k :: 0 <= k < |s| ==> IsSpace(s[k])
  }

  /** The end of the run of characters satisfying `P` that starts at `i`. */
  function RunEnd(s: string, i: nat, P: char -> bool): (e: nat)
    requires i <= |s|
    ensures i <= e <= |s|
    ensures forall k :: i <= k < e ==> P(s[k])
    ensures e == |s| || !P(s[e])
    decreases |s| - i
  {
    if i == |s| || !P(s[i]) then i else RunEnd(s, i + 1, P)
  }

  /** The start of the run of characters satisfying `P` that ends at `j` and
      does not reach below `lo`. */
  function RunStart(s: string, lo: nat, j: nat, P: char -> bool): (b: nat)
    requires lo <= j <= |s|
    ensures lo <= b <= j
    ensures forall k :: b <= k < j ==> P(s[k])
    ensures b == lo || !P(s[b - 1])
    decreases j
  {
    if j == lo || !P(s[j - 1]) then j else RunStart(s, lo, j - 1, P)
  }

  /** `s.strip()`: `s` without its leading and trailing whitespace. */
  function Strip(s: string): (r: string)
    ensures exists i, j :: 0 <= i <= j <= |s| && r == s[i..j] && AllSpace(s[..i]) && AllSpace(s[j..])
    ensures r == [] || (!IsSpace(r[0]) && !IsSpace(r[|r| - 1]))
  {
    var i := RunEnd(s, 0, IsSpace);
    var j := RunStart(s, i, |s|, IsSpace);
    SpaceEnds(s, i, j);
    assert i < j ==> s[i..j][0] == s[i] && s[i..j][j - i - 1] == s[j - 1];
    s[i..j]
  }

  lemma SpaceEnds(s: string, i: nat, j: nat)
    requires i <= j <= |s|
    requires forall k :: 0 <= k < i ==> IsSpace(s[k])
    requires forall k :: j <= k < |s| ==> IsSpace(s[k])
    ensures AllSpace(s[..i]) && AllSpace(s[j..])
  {
    assert forall k :: 0 <= k < i ==> s[..i][k] == s[k];
    assert forall k :: 0 <= k < |s| - j ==> s[j..][k] == s[j + k];
  }

  /** Stripping twice is stripping once. */
  lemma StripIdempotent(s: string)
    ensures Strip(Strip(s)) == Strip(s)
  {
    var r := Strip(s);
    var i := RunEnd(r, 0, IsSpace);
    assert i == 0;
    var j := RunStart(r, i, |r|, IsSpace);
    assert j == |r|;
    assert r[0..|r|] == r;
  }

  /** `str.lower()` on one character, for ASCII letters. */
  function LowerChar(ch: char): char
  {
    if 'A' <= ch <= 'Z' then (ch as int - 'A' as int + 'a' as int) as char else ch
  }

  /** `s.lower()`, for ASCII letters. */
  function Lower(s: string): string
  {
    seq(|s|, i requires 0 <= i < |s| => LowerChar(s[i]))
  }

  /** `p` occurs in `s` at some position. */
  ghost predicate OccursIn(p: string, s: string)
  {
    exists i :: OccursAt(p, s, i)
  }

  /** `p` occurs in `s` starting at index `i`. */
  predicate OccursAt(p: string, s: string, i: int)
  {
    0 <= i <= |s| - |p| && s[i..i + |p|] == p
  }

  /** When `p` is not a prefix of `s`, it occurs in `s` exactly when it
      occurs in `s` without its first character. */
  lemma OccursInTail(p: string, s: string)
    requires s != [] && !(p <= s)
    ensures OccursIn(p, s) <==> OccursIn(p, s[1..])
  {
    if OccursIn(p, s) {
      var i :| OccursAt(p, s, i);
      assert i != 0;
      assert s[1..][i - 1..i - 1 + |p|] == p;
      assert OccursAt(p, s[1..], i - 1);
    }
    if OccursIn(p, s[1..]) {
      var i :| OccursAt(p, s[1..], i);
      assert s[i + 1..i + 1 + |p|] == p;
      assert OccursAt(p, s, i + 1);
    }
  }

  /** `p in s`: `p` occurs in `s` as a contiguous substring. */
  function Contains(s: string, p: string): (r: bool)
    ensures r <==> OccursIn(p, s)
    decreases |s|
  {
    if p <= s then
      assert OccursAt(p, s, 0);
      true
    else if s == [] then false
    else
      OccursInTail(p, s);
      Contains(s[1..], p)
  }

  /** Lower-casing keeps an occurrence where it is. */
  lemma LowerOccursAt(p: string, s: string, i: int)
    requires OccursAt(p, s, i)
    ensures OccursAt(Lower(p), Lower(s), i)
  {
    assert Lower(s)[i..i + |p|] == Lower(p);
  }

  /** A substring of a substring is a substring. */
  lemma ContainsTransitive(s: string, t: string, u: string)
    requires Contains(s, t) && Contains(t, u)
    ensures Contains(s, u)
  {
    assert OccursIn(t, s) && OccursIn(u, t);
    var i :| OccursAt(t, s, i);
    var j :| OccursAt(u, t, j);
    assert |t| == |s[i..i + |t|]|;
    forall k | 0 <= k < |u| ensures s[i + j + k] == u[k] {
      assert u[k] == t[j + k] == s[i..i + |t|][j + k];
    }
    assert s[i + j..i + j + |u|] == u;
    assert OccursAt(u, s, i + j);
  }

  /** `s.replace(a, b)` for single characters. */
  function Replace(s: string, a: char, b: char): (r: string)
    ensures |r| == |s|
    ensures forall k :: 0 <= k < |s| ==> r[k] == (if s[k] == a then b else s[k])
  {
    seq(|s|, i requires 0 <= i < |s| => if s[i] == a then b else s[i])
  }

  /** `s.count(c)` for a single character. */
  function Count(s: string, c: char): nat
  {
    if s == [] then 0 else (if s[0] == c then 1 else 0) + Count(s[1..], c)
  }

  lemma {:induction false} CountAppend(a: string, b: string, c: char)
    ensures Count(a + b, c) == Count(a, c) + Count(b, c)
  {
    if a == [] {
      assert a + b == b;
    } else {
      assert (a + b)[1..] == a[1..] + b;
      CountAppend(a[1..], b, c);
    }
  }

  /** Replacing `a` by `b` turns the occurrences of `a` into occurrences of `b`. */
  lemma {:induction false} CountReplace(s: string, a: char, b: char)
    requires a != b
    ensures Count(Replace(s, a, b), b) == Count(s, a) + Count(s, b)
    ensures Count(Replace(s, a, b), a) == 0
  {
    if s != [] {
      assert Replace(s, a, b)[1..] == Replace(s[1..], a, b);
      CountReplace(s[1..], a, b);
    }
  }

  /** When `b` does not occur in `s`, splitting `s.replace(a, b)` at `b` cuts
      it where `s` is cut at `a`. */
  lemma {:induction false} SplitReplace(s: string, a: char, b: char)
    requires b !in s
    ensures Split(Replace(s, a, b), b) == Split(s, a)
  {
    if s != [] {
      assert Replace(s, a, b)[1..] == Replace(s[1..], a, b);
      SplitReplace(s[1..], a, b);
    }
  }

  /** A character is counted as absent exactly when it does not occur. */
  lemma {:induction false} CountZero(s: string, c: char)
    ensures Count(s, c) == 0 <==> c !in s
  {
    if s != [] {
      CountZero(s[1..], c);
      assert s == [s[0]] + s[1..];
    }
  }

  /** Python's slice `xs[start:stop]`, negative indices counting from the end. */
  function SliceIndex(i: int, n: nat): (k: nat)
    ensures k <= n
  {
    if i < 0 then (if n + i < 0 then 0 else n + i) else if i > n then n else i
  }

  function PySlice<T>(xs: seq<T>, start: int, stop: int): seq<T>
  {
    var a := SliceIndex(start, |xs|);
    var b := SliceIndex(stop, |xs|);
    if a < b then xs[a..b] else []
  }

  predicate IsDigit(ch: char) { '0' <= ch <= '9' }

  predicate AllDigits(s: string)
  {
    forall k :: 0 <= k < |s| ==> IsDigit(s[k])
  }

  /** `int(s)` for a string of decimal digits. */
  function DecimalValue(s: string): nat
    requires AllDigits(s)
    decreases |s|
  {
    if s == [] then 0 else 10 * DecimalValue(s[..|s| - 1]) + (s[|s| - 1] as int - '0' as int)
  }

  function DigitChar(d: nat): char
    requires d < 10
  {
    ('0' as int + d) as char
  }

  /** `f"{n}"` (also `str(n)`) for a natural number. */
  function NatToDecimal(n: nat): (r: string)
    ensures r != [] && AllDigits(r)
    ensures r[0] == '0' ==> n == 0 && |r| == 1
  {
    if n < 10 then [DigitChar(n)] else NatToDecimal(n / 10) + [DigitChar(n % 10)]
  }

  /** `int(f"{n}") == n`. */
  lemma {:induction false} DecimalOfNatToDecimal(n: nat)
    ensures DecimalValue(NatToDecimal(n)) == n
  {
    if n >= 10 {
      DecimalOfNatToDecimal(n / 10);
      var r := NatToDecimal(n);
      assert r[..|r| - 1] == NatToDecimal(n / 10);
    }
  }

  lemma {:induction false} DecimalPositive(s: string)
    requires s != [] && AllDigits(s) && s[0] != '0'
    ensures DecimalValue(s) >= 1
  {
    if |s| > 1 {
      DecimalPositive(s[..|s| - 1]);
    }
  }

  /** `f"{int(s)}" == s` for a digit string without leading zeros. */
  lemma {:induction false} NatToDecimalOfDecimal(s: string)
    requires s != [] && AllDigits(s)
    requires s[0] == '0' ==> |s| == 1
    ensures NatToDecimal(DecimalValue(s)) == s
  {
    var init := s[..|s| - 1];
    var d := s[|s| - 1] as int - '0' as int;
    if |s| == 1 {
      assert DecimalValue(s) == d;
      assert [DigitChar(d)] == s;
    } else {
      DecimalPositive(init);
      NatToDecimalOfDecimal(init);
      var v := DecimalValue(s);
      assert v == 10 * DecimalValue(init) + d;
      assert v / 10 == DecimalValue(init) && v % 10 == d;
      assert init + [s[|s| - 1]] == s;
    }
  }
}
