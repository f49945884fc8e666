/** Extraction of `(class, file, line)` triples from Java stack-trace text,
    as `think.py` does with `re.findall` over the pattern
    `at ([\w\.]+)\.\w+\((\w+\.java):(\d+)\)` and then keeps the first
    `limit` of them. `\w` is ASCII `[A-Za-z0-9_]` and `\d` is `[0-9]`.

    The scanner (`MatchAt`, `FindAll`) is proved to agree with a declarative
    description: `MatchText` says what the text of one match looks like, and
    `LeftmostScan` says what `findall` returns (leftmost matches in order,
    each search resuming where the previous match ended). */
module StackTrace {
  import opened Wrappers
  import opened Builtins

  /** One triple of `findall`'s groups: the class path, the file name and
      the line number as text. */
  datatype Frame = Frame(classPath: string, fileName: string, line: string)

  /** A match: where it starts, where it ends (exclusive), and its groups. */
  datatype Hit = Hit(start: nat, end: nat, frame: Frame)

  const DefaultLimit: int := 3

  predicate IsWordChar(ch: char)
  {
    'a' <= ch <= 'z' || 'A' <= ch <= 'Z' || '0' <= ch <= '9' || ch == '_'
  }

  /** The characters of `[\w\.]`. */
  predicate IsClassChar(ch: char)
  {
    IsWordChar(ch) || ch == '.'
  }

  /** Text matched by `\w+`. */
  predicate WordRun(s: string)
  {
    s != [] && forall k :: 0 <= k < |s| ==> IsWordChar(s[k])
  }

  /** Text matched by `[\w\.]+`. */
  predicate ClassRun(s: string)
  {
    s != [] && forall k :: 0 <= k < |s| ==> IsClassChar(s[k])
  }

  /** Text matched by `\d+`. */
  predicate DigitRun(s: string)
  {
    s != [] && AllDigits(s)
  }

  /** Text matched by `\w+\.java`. */
  predicate FileGroup(s: string)
  {
    |s| > 5 && WordRun(s[..|s| - 5]) && s[|s| - 5..] == ".java"
  }

  /** The groups of a match have the shapes their sub-patterns allow. */
  predicate WellFormed(f: Frame)
  {
    ClassRun(f.classPath) && FileGroup(f.fileName) && DigitRun(f.line)
  }

  /** `t` is the whole text of one match of the pattern with groups `f`, the
      method name being `m`. */
  predicate MatchText(t: string, f: Frame, m: string)
  {
    WellFormed(f) && WordRun(m)
    && t == "at " + f.classPath + "." + m + "(" + f.fileName + ":" + f.line + ")"
  }

  /** The pattern matches `s[p..e]` with groups `f`. */
  ghost predicate PatternMatch(s: string, p: nat, e: nat, f: Frame)
  {
    p <= e <= |s| && exists m :: MatchText(s[p..e], f, m)
  }

  /** No match of the pattern starts at `p`. */
  ghost predicate NoMatchAt(s: string, p: nat)
  {
    forall e, f :: !PatternMatch(s, p, e, f)
  }

  /** `hits` is what `findall` returns when it searches `s` from `from`: the
      leftmost match, then the leftmost match from where that one ended, and
      so on, until no match is left. */
  ghost predicate LeftmostScan(s: string, from: nat, hits: seq<Hit>)
    decreases |hits|
  {
    if hits == [] then
      forall p :: from <= p < |s| ==> NoMatchAt(s, p)
    else
      var h := hits[0];
      && from <= h.start
      && (forall p :: from <= p < h.start ==> NoMatchAt(s, p))
      && PatternMatch(s, h.start, h.end, h.frame)
      && LeftmostScan(s, h.end, hits[1..])
  }

  /** The last index of `c` in `s[lo..hi]`. */
  function LastIndexOf(s: string, lo: nat, hi: nat, c: char): (r: Option<nat>)
    requires lo <= hi <= |s|
    ensures r.Some? ==> lo <= r.value < hi && s[r.value] == c
    ensures r.Some? ==> forall k :: r.value < k < hi ==> s[k] != c
    ensures r.None? ==> forall k :: lo <= k < hi ==> s[k] != c
    decreases hi - lo
  {
    if hi == lo then None
    else if s[hi - 1] == c then Some(hi - 1)
    else LastIndexOf(s, lo, hi - 1, c)
  }

  /** Every character of `s[i..j]` satisfies `P`. */
  predicate Run(s: string, i: nat, j: nat, P: char -> bool)
  {
    i <= j <= |s| && forall k :: i <= k < j ==> P(s[k])
  }

  /** Where the pieces of a match that starts at `p` lie: the `.` before the
      method name at `d`, the `(` at `q`, the `.java:` at `g` and the `)` at
      `h`. */
  datatype Layout = Layout(d: nat, q: nat, g: nat, h: nat)

  /** `s` holds `at ` at `p`. */
  predicate AtMarker(s: string, p: nat)
  {
    p + 3 <= |s| && s[p..p + 3] == "at "
  }

  /** `s` holds `.java:` at `g`. */
  predicate JavaMarker(s: string, g: nat)
  {
    g + 6 <= |s| && s[g..g + 6] == ".java:"
  }

  /** The characters of `s` at the positions of `l` spell a match. */
  predicate GoodLayout(s: string, p: nat, l: Layout)
  {
    && p + 3 < l.d && l.d + 1 < l.q && l.q + 1 < l.g && l.g + 6 < l.h < |s|
    && AtMarker(s, p)
    && Run(s, p + 3, l.d, IsClassChar) && s[l.d] == '.'
    && Run(s, l.d + 1, l.q, IsWordChar) && s[l.q] == '('
    && Run(s, l.q + 1, l.g, IsWordChar) && JavaMarker(s, l.g)
    && Run(s, l.g + 6, l.h, IsDigit) && s[l.h] == ')'
  }

  /** The groups of the match laid out by `l`. */
  function LayoutFrame(s: string, p: nat, l: Layout): Frame
    requires GoodLayout(s, p, l)
  {
    Frame(s[p + 3..l.d], s[l.q + 1..l.g + 5], s[l.g + 6..l.h])
  }

  /** The positions of the match that starts at `p`, if there is one. The
      class group is everything up to the last `.` of the run of `[\w\.]`
      after `at `, which must be followed by `(`, since the method name
      `\w+` holds no `.`; the file group is the word run after `(` followed
      by `.java`, then `:`, the digits and `)`. */
  function FindLayout(s: string, p: nat): (r: Option<Layout>)
  {
    if !AtMarker(s, p) then None
    else
      var q := RunEnd(s, p + 3, IsClassChar);
      if q == |s| || s[q] != '(' then None
      else
        match LastIndexOf(s, p + 3, q, '.')
        case None => None
        case Some(d) =>
          if d == p + 3 || d + 1 == q then None
          else
            var g := RunEnd(s, q + 1, IsWordChar);
            if g == q + 1 || !JavaMarker(s, g) then None
            else
              var h := RunEnd(s, g + 6, IsDigit);
              if h == g + 6 || h == |s| || s[h] != ')' then None
              else Some(Layout(d, q, g, h))
  }

  /** What the scanner finds is a layout. */
  lemma FindLayoutGood(s: string, p: nat)
    requires FindLayout(s, p).Some?
    ensures GoodLayout(s, p, FindLayout(s, p).value)
  {
  }

  /** A run of `P` that stops at `e` is the one `RunEnd` finds. */
  lemma RunEndAt(s: string, i: nat, e: nat, P: char -> bool)
    requires Run(s, i, e, P) && (e == |s| || !P(s[e]))
    ensures RunEnd(s, i, P) == e
  {
  }

  /** In a layout, the run of `[\w\.]` after `at ` ends at the `(`, and its
      last `.` is the one at `d`. */
  lemma LayoutClassRun(s: string, p: nat, l: Layout)
    requires GoodLayout(s, p, l)
    ensures RunEnd(s, p + 3, IsClassChar) == l.q
    ensures LastIndexOf(s, p + 3, l.q, '.') == Some(l.d)
  {
    assert Run(s, p + 3, l.q, IsClassChar) by {
      forall k | p + 3 <= k < l.q ensures IsClassChar(s[k]) {
        if k > l.d {
          assert IsWordChar(s[k]);
        }
      }
    }
    RunEndAt(s, p + 3, l.q, IsClassChar);
  }

  /** A layout is the one the scanner finds. */
  lemma LayoutUnique(s: string, p: nat, l: Layout)
    requires GoodLayout(s, p, l)
    ensures FindLayout(s, p) == Some(l)
  {
    LayoutClassRun(s, p, l);
    assert s[l.g] == s[l.g..l.g + 6][0] == '.';
    RunEndAt(s, l.q + 1, l.g, IsWordChar);
    RunEndAt(s, l.g + 6, l.h, IsDigit);
  }

  /** The groups of a layout have the shapes of their sub-patterns. */
  lemma LayoutWellFormed(s: string, p: nat, l: Layout)
    requires GoodLayout(s, p, l)
    ensures WellFormed(LayoutFrame(s, p, l))
  {
    ClassRunAt(s, p + 3, l.d);
    FileGroupAt(s, l.q + 1, l.g);
    DigitRunAt(s, l.g + 6, l.h);
    assert LayoutFrame(s, p, l) == Frame(s[p + 3..l.d], s[l.q + 1..l.g + 5], s[l.g + 6..l.h]);
  }

  lemma ClassRunAt(s: string, i: nat, j: nat)
    requires i < j && Run(s, i, j, IsClassChar)
    ensures ClassRun(s[i..j])
  {
  }

  lemma WordRunAt(s: string, i: nat, j: nat)
    requires i < j && Run(s, i, j, IsWordChar)
    ensures WordRun(s[i..j])
  {
  }

  lemma DigitRunAt(s: string, i: nat, j: nat)
    requires i < j && Run(s, i, j, IsDigit)
    ensures DigitRun(s[i..j])
  {
  }

  /** A word run followed by `.java:` holds a file group. */
  lemma FileGroupAt(s: string, i: nat, g: nat)
    requires i < g && Run(s, i, g, IsWordChar) && JavaMarker(s, g)
    ensures FileGroup(s[i..g + 5])
  {
    var fn := s[i..g + 5];
    assert fn[..|fn| - 5] == s[i..g];
    assert s[g..g + 5] == s[g..g + 6][..5] == ".java";
    assert fn[|fn| - 5..] == s[g..g + 5];
    WordRunAt(s, i, g);
  }

  /** `s[i..k]` is `s[i..j]` followed by `s[j..k]`. */
  lemma SliceSplit(s: string, i: nat, j: nat, k: nat)
    requires i <= j <= k <= |s|
    ensures s[i..k] == s[i..j] + s[j..k]
  {
  }

  /** Nine adjacent pieces of `s` spell the text of a match. */
  lemma SpellMatch(s: string, p: nat, d: nat, q: nat, g: nat, h: nat, c: string, m: string, fn: string, ln: string)
    requires p + 3 <= d < q < g + 5 < h < |s|
    requires s[p..p + 3] == "at " && s[p + 3..d] == c && s[d..d + 1] == "."
    requires s[d + 1..q] == m && s[q..q + 1] == "(" && s[q + 1..g + 5] == fn
    requires s[g + 5..g + 6] == ":" && s[g + 6..h] == ln && s[h..h + 1] == ")"
    ensures s[p..h + 1] == "at " + c + "." + m + "(" + fn + ":" + ln + ")"
  {
    Extend(s, p, p + 3, d, "at ", c);
    Extend(s, p, d, d + 1, "at " + c, ".");
    Extend(s, p, d + 1, q, "at " + c + ".", m);
    Extend(s, p, q, q + 1, "at " + c + "." + m, "(");
    Extend(s, p, q + 1, g + 5, "at " + c + "." + m + "(", fn);
    Extend(s, p, g + 5, g + 6, "at " + c + "." + m + "(" + fn, ":");
    Extend(s, p, g + 6, h, "at " + c + "." + m + "(" + fn + ":", ln);
    Extend(s, p, h, h + 1, "at " + c + "." + m + "(" + fn + ":" + ln, ")");
  }

  /** A slice followed by the next piece of `s` is a longer slice. */
  lemma Extend(s: string, i: nat, j: nat, k: nat, t: string, u: string)
    requires i <= j <= k <= |s| && s[i..j] == t && s[j..k] == u
    ensures s[i..k] == t + u
  {
    SliceSplit(s, i, j, k);
  }

  /** The text of a layout is a match with the layout's groups. */
  lemma LayoutMatch(s: string, p: nat, l: Layout)
    requires GoodLayout(s, p, l)
    ensures MatchText(s[p..l.h + 1], LayoutFrame(s, p, l), s[l.d + 1..l.q])
  {
    LayoutWellFormed(s, p, l);
    var f := LayoutFrame(s, p, l);
    var m := s[l.d + 1..l.q];
    assert WordRun(m);
    assert s[l.g + 5..l.g + 6] == s[l.g..l.g + 6][5..] == ":";
    assert s[l.d..l.d + 1] == "." && s[l.q..l.q + 1] == "(" && s[l.h..l.h + 1] == ")";
    SpellMatch(s, p, l.d, l.q, l.g, l.h, f.classPath, m, f.fileName, f.line);
  }

  /** Cutting `A + B` off the front of `s[i..]` cuts `A`, then `B`. */
  lemma Peel(s: string, i: nat, a: string, b: string)
    requires i + |a| + |b| <= |s| && s[i..i + |a| + |b|] == a + b
    ensures s[i..i + |a|] == a && s[i + |a|..i + |a| + |b|] == b
  {
    assert s[i..i + |a|] == s[i..i + |a| + |b|][..|a|];
    assert s[i + |a|..i + |a| + |b|] == s[i..i + |a| + |b|][|a|..];
  }

  /** The characters of `s[i..j]` satisfy `P` when that text is a run of `P`. */
  lemma RunOfSlice(s: string, i: nat, j: nat, P: char -> bool)
    requires i <= j <= |s| && forall k :: 0 <= k < j - i ==> P(s[i..j][k])
    ensures Run(s, i, j, P)
  {
    forall k | i <= k < j ensures P(s[k]) {
      assert s[k] == s[i..j][k - i];
    }
  }

  /** The layout of a match, read off the lengths of its pieces. */
  function MatchLayout(p: nat, f: Frame, m: string): Layout
  {
    var d := p + 3 + |f.classPath|;
    var q := d + 1 + |m|;
    var g := q + 1 + |f.fileName| - 5;
    Layout(d, q, g, g + 6 + |f.line|)
  }

  /** The nine pieces of the text of a match, found at their places. */
  lemma UnspellMatch(s: string, p: nat, e: nat, c: string, m: string, fn: string, ln: string)
    requires p <= e <= |s| && s[p..e] == "at " + c + "." + m + "(" + fn + ":" + ln + ")"
    ensures var d := p + 3 + |c|; var q := d + 1 + |m|; var g5 := q + 1 + |fn|; var h := g5 + 1 + |ln|;
      && e == h + 1
      && s[p..p + 3] == "at " && s[p + 3..d] == c && s[d] == '.'
      && s[d + 1..q] == m && s[q] == '(' && s[q + 1..g5] == fn && s[g5] == ':'
      && s[g5 + 1..h] == ln && s[h] == ')'
  {
    var t1 := "at " + c;
    var t2 := t1 + ".";
    var t3 := t2 + m;
    var t4 := t3 + "(";
    var t5 := t4 + fn;
    var t6 := t5 + ":";
    var t7 := t6 + ln;
    PeelChar(s, p, t7, ')');
    Peel(s, p, t6, ln);
    PeelChar(s, p, t5, ':');
    Peel(s, p, t4, fn);
    PeelChar(s, p, t3, '(');
    Peel(s, p, t2, m);
    PeelChar(s, p, t1, '.');
    Peel(s, p, "at ", c);
  }

  /** Cutting `A` and one more character off the front of `s[i..]`. */
  lemma PeelChar(s: string, i: nat, a: string, ch: char)
    requires i + |a| + 1 <= |s| && s[i..i + |a| + 1] == a + [ch]
    ensures s[i..i + |a|] == a && s[i + |a|] == ch
  {
    Peel(s, i, a, [ch]);
  }

  /** The pieces of a match, found at their places in `s`. */
  lemma MatchPieces(s: string, p: nat, e: nat, f: Frame, m: string)
    requires p <= e <= |s| && MatchText(s[p..e], f, m)
    ensures var l := MatchLayout(p, f, m);
      && e == l.h + 1
      && s[p..p + 3] == "at " && s[p + 3..l.d] == f.classPath && s[l.d] == '.'
      && s[l.d + 1..l.q] == m && s[l.q] == '('
      && s[l.q + 1..l.g + 5] == f.fileName && s[l.g + 5] == ':'
      && s[l.g + 6..l.h] == f.line && s[l.h] == ')'
  {
    UnspellMatch(s, p, e, f.classPath, m, f.fileName, f.line);
  }

  /** Where a file group followed by `:` is spelled out, its word run ends
      at `g` and `.java:` follows. */
  lemma FileTail(s: string, i: nat, g: nat, fn: string)
    requires i <= g + 5 < |s| && s[i..g + 5] == fn && FileGroup(fn) && s[g + 5] == ':'
    ensures s[i..g] == fn[..|fn| - 5] && JavaMarker(s, g)
  {
    var word := fn[..|fn| - 5];
    assert fn == word + ".java";
    Peel(s, i, word, ".java");
    assert s[g..g + 5] == ".java";
    SliceSplit(s, g, g + 5, g + 6);
  }

  /** Any match is laid out by `MatchLayout`. */
  lemma MatchIsLayout(s: string, p: nat, e: nat, f: Frame, m: string)
    requires p <= e <= |s| && MatchText(s[p..e], f, m)
    ensures GoodLayout(s, p, MatchLayout(p, f, m))
    ensures LayoutFrame(s, p, MatchLayout(p, f, m)) == f
    ensures e == MatchLayout(p, f, m).h + 1
  {
    MatchPieces(s, p, e, f, m);
    var l := MatchLayout(p, f, m);
    FileTail(s, l.q + 1, l.g, f.fileName);
    RunOfSlice(s, p + 3, l.d, IsClassChar);
    RunOfSlice(s, l.d + 1, l.q, IsWordChar);
    RunOfSlice(s, l.q + 1, l.g, IsWordChar);
    RunOfSlice(s, l.g + 6, l.h, IsDigit);
  }

  /** The match of the pattern that starts at `p`, if there is one. */
  function MatchAt(s: string, p: nat): (r: Option<Hit>)
    ensures r.Some? ==> r.value.start == p < r.value.end <= |s|
  {
    match FindLayout(s, p)
    case None => None
    case Some(l) =>
      FindLayoutGood(s, p);
      Some(Hit(p, l.h + 1, LayoutFrame(s, p, l)))
  }

  /** The groups of a match have the shapes of their sub-patterns. */
  lemma MatchAtWellFormed(s: string, p: nat)
    requires MatchAt(s, p).Some?
    ensures WellFormed(MatchAt(s, p).value.frame)
  {
    FindLayoutGood(s, p);
    LayoutWellFormed(s, p, FindLayout(s, p).value);
  }

  /** `re.findall` from position `i` on. */
  function FindAll(s: string, i: nat): (hits: seq<Hit>)
    requires i <= |s|
    decreases |s| - i
  {
    if i == |s| then []
    else
      match MatchAt(s, i)
      case None => FindAll(s, i + 1)
      case Some(h) => [h] + FindAll(s, h.end)
  }

  /** `hits` lie between `i` and `n`, in order and without overlap, and
      their groups have the shapes of the sub-patterns. */
  predicate InOrder(hits: seq<Hit>, i: nat, n: nat)
  {
    && (forall k :: 0 <= k < |hits| ==> i <= hits[k].start < hits[k].end <= n)
    && (forall k :: 0 <= k < |hits| - 1 ==> hits[k].end <= hits[k + 1].start)
    && (forall k :: 0 <= k < |hits| ==> WellFormed(hits[k].frame))
  }

  lemma ConsInOrder(h: Hit, rest: seq<Hit>, i: nat, n: nat)
    requires i <= h.start < h.end <= n && WellFormed(h.frame) && InOrder(rest, h.end, n)
    ensures InOrder([h] + rest, i, n)
  {
    var hits := [h] + rest;
    assert forall k :: 1 <= k < |hits| ==> hits[k] == rest[k - 1];
  }

  /** The matches of `findall` lie after `i`, in order and without overlap,
      and their groups have the shapes of the sub-patterns. */
  lemma {:induction false} FindAllInOrder(s: string, i: nat)
    requires i <= |s|
    ensures InOrder(FindAll(s, i), i, |s|)
    decreases |s| - i
  {
    if i < |s| {
      match MatchAt(s, i)
      case None =>
        FindAllInOrder(s, i + 1);
        FindAllSkip(s, i);
      case Some(h) =>
        FindAllInOrder(s, h.end);
        FindAllHit(s, i);
        MatchAtWellFormed(s, i);
        ConsInOrder(h, FindAll(s, h.end), i, |s|);
    }
  }

  function FramesOf(hits: seq<Hit>): (frames: seq<Frame>)
  {
    seq(|hits|, k requires 0 <= k < |hits| => hits[k].frame)
  }

  /** `parse_stack_trace(log, limit)`: `findall(log)[:limit]`. */
  function ParseStackTrace(log: string, limit: int): (frames: seq<Frame>)
    ensures var all := FindAll(log, 0);
      && (limit >= 0 ==> |frames| == Min(limit, |all|))
      && (limit < 0 ==> |frames| == Max(0, |all| + limit))
      && forall k :: 0 <= k < |frames| ==> frames[k] == all[k].frame
    ensures forall k :: 0 <= k < |frames| ==> WellFormed(frames[k])
  {
    FindAllInOrder(log, 0);
    FramesOf(PySlice(FindAll(log, 0), 0, limit))
  }

  /** With the default limit there are at most three frames. */
  lemma AtMostDefaultLimit(log: string)
    ensures |ParseStackTrace(log, DefaultLimit)| <= 3
  {
  }

  // ---------------------------------------------------------------------
  // The scanner agrees with the declarative description.

  /** The scanner finds only matches of the pattern. */
  lemma MatchAtSound(s: string, p: nat)
    requires MatchAt(s, p).Some?
    ensures PatternMatch(s, p, MatchAt(s, p).value.end, MatchAt(s, p).value.frame)
  {
    var l := FindLayout(s, p).value;
    FindLayoutGood(s, p);
    LayoutMatch(s, p, l);
    var h := MatchAt(s, p).value;
    assert h == Hit(p, l.h + 1, LayoutFrame(s, p, l));
    var m := s[l.d + 1..l.q];
    assert MatchText(s[p..h.end], h.frame, m);
  }

  /** Any match of the pattern at `p` is the one the scanner finds there. */
  lemma MatchAtComplete(s: string, p: nat, e: nat, f: Frame, m: string)
    requires p <= e <= |s| && MatchText(s[p..e], f, m)
    ensures MatchAt(s, p) == Some(Hit(p, e, f))
  {
    var l := MatchLayout(p, f, m);
    MatchIsLayout(s, p, e, f, m);
    LayoutUnique(s, p, l);
    MatchAtLayout(s, p, l);
  }

  /** The match the scanner reports for a layout it finds. */
  lemma MatchAtLayout(s: string, p: nat, l: Layout)
    requires GoodLayout(s, p, l) && FindLayout(s, p) == Some(l)
    ensures MatchAt(s, p) == Some(Hit(p, l.h + 1, LayoutFrame(s, p, l)))
  {
  }

  /** Where the scanner finds nothing, the pattern does not match. */
  lemma NoMatchWhereNone(s: string, p: nat)
    requires MatchAt(s, p).None?
    ensures NoMatchAt(s, p)
  {
    forall e: nat, f: Frame | PatternMatch(s, p, e, f) ensures false {
      var m :| MatchText(s[p..e], f, m);
      MatchAtComplete(s, p, e, f, m);
    }
  }

  /** A match needs at least the text `at `, so none starts at the end. */
  lemma NoMatchAtEnd(s: string)
    ensures NoMatchAt(s, |s|)
  {
  }

  lemma ScanFromEarlier(s: string, i: nat, hits: seq<Hit>)
    requires LeftmostScan(s, i + 1, hits) && NoMatchAt(s, i)
    ensures LeftmostScan(s, i, hits)
  {
  }

  /** The scanner's result is a leftmost scan. */
  lemma {:induction false} FindAllIsLeftmostScan(s: string, i: nat)
    requires i <= |s|
    ensures LeftmostScan(s, i, FindAll(s, i))
    decreases |s| - i
  {
    if i < |s| {
      match MatchAt(s, i)
      case None =>
        FindAllIsLeftmostScan(s, i + 1);
        NoMatchWhereNone(s, i);
        ScanFromEarlier(s, i, FindAll(s, i + 1));
      case Some(h) =>
        FindAllIsLeftmostScan(s, h.end);
        MatchAtSound(s, i);
        assert FindAll(s, i)[1..] == FindAll(s, h.end);
    }
  }

  /** Where the scanner finds a match, a leftmost scan starts with it. */
  lemma ScanStartsWithMatch(s: string, i: nat, hits: seq<Hit>)
    requires LeftmostScan(s, i, hits) && MatchAt(s, i).Some?
    ensures hits != [] && hits[0] == MatchAt(s, i).value
    ensures LeftmostScan(s, hits[0].end, hits[1..])
  {
    MatchAtSound(s, i);
    assert !NoMatchAt(s, i);
    assert hits != [] && hits[0].start == i;
    var m :| MatchText(s[i..hits[0].end], hits[0].frame, m);
    MatchAtComplete(s, i, hits[0].end, hits[0].frame, m);
  }

  /** Where the scanner finds nothing, a leftmost scan starts later. */
  lemma ScanSkipsNoMatch(s: string, i: nat, hits: seq<Hit>)
    requires LeftmostScan(s, i, hits) && MatchAt(s, i).None?
    ensures LeftmostScan(s, i + 1, hits)
  {
    if hits != [] && hits[0].start == i {
      var m :| MatchText(s[i..hits[0].end], hits[0].frame, m);
      MatchAtComplete(s, i, hits[0].end, hits[0].frame, m);
    }
  }

  /** There is only one leftmost scan: the scanner's. */
  lemma {:induction false} LeftmostScanUnique(s: string, i: nat, hits: seq<Hit>)
    requires i <= |s| && LeftmostScan(s, i, hits)
    ensures hits == FindAll(s, i)
    decreases |s| - i
  {
    if i == |s| {
      if hits != [] {
        NoMatchAtEnd(s);
      }
    } else if MatchAt(s, i).Some? {
      ScanStartsWithMatch(s, i, hits);
      LeftmostScanUnique(s, hits[0].end, hits[1..]);
    } else {
      ScanSkipsNoMatch(s, i, hits);
      LeftmostScanUnique(s, i + 1, hits);
    }
  }

  /** `parse_stack_trace` in declarative terms: the groups of the first
      `limit` matches of the leftmost scan of the whole log, in order. */
  lemma ParseStackTraceIsScan(log: string, limit: int, hits: seq<Hit>)
    requires LeftmostScan(log, 0, hits) && limit >= 0
    ensures ParseStackTrace(log, limit) == FramesOf(hits[..Min(limit, |hits|)])
  {
    LeftmostScanUnique(log, 0, hits);
    if limit >= |hits| {
      assert hits[..|hits|] == hits;
    }
  }

  /** Text in which the pattern matches nowhere gives no frames: lines
      without a `(Name.java:digits)` tail are skipped, not reported. */
  lemma NoMatchNoFrames(s: string, limit: int)
    requires forall p :: 0 <= p < |s| ==> NoMatchAt(s, p)
    ensures ParseStackTrace(s, limit) == []
  {
    LeftmostScanUnique(s, 0, []);
  }

  /** Only a position holding `at ` can start a match. */
  lemma {:induction false} FindAllWithoutAt(s: string, i: nat)
    requires i <= |s|
    requires forall p :: i <= p < |s| - 2 ==> !(s[p] == 'a' && s[p + 1] == 't' && s[p + 2] == ' ')
    ensures FindAll(s, i) == []
    decreases |s| - i
  {
    if i < |s| {
      assert MatchAt(s, i).None? by {
        if i + 3 <= |s| {
          assert s[i..i + 3] != "at " by {
            assert !(s[i] == 'a' && s[i + 1] == 't' && s[i + 2] == ' ');
          }
        }
      }
      FindAllWithoutAt(s, i + 1);
    }
  }

  /** A text whose only match spans from `p` to its end yields exactly that
      match's frame. */
  lemma SingleMatch(s: string, p: nat, h: Hit)
    requires p < |s| && MatchAt(s, p) == Some(h) && h.end == |s|
    requires forall q :: 0 <= q < p ==> MatchAt(s, q).None?
    ensures ParseStackTrace(s, DefaultLimit) == [h.frame]
  {
    OnlyHit(s, 0, p, h);
    assert PySlice([h], 0, DefaultLimit) == [h];
  }

  /** The scanner skips the positions from `q` to `p` and stops after the
      match at `p`. */
  lemma {:induction false} OnlyHit(s: string, q: nat, p: nat, h: Hit)
    requires q <= p < |s| && MatchAt(s, p) == Some(h) && h.end == |s|
    requires forall r :: q <= r < p ==> MatchAt(s, r).None?
    ensures FindAll(s, q) == [h]
    decreases p - q
  {
    if q == p {
      LastHit(s, p, h);
    } else {
      FindAllSkip(s, q);
      OnlyHit(s, q + 1, p, h);
    }
  }

  /** A match that ends the text is the scanner's last one. */
  lemma LastHit(s: string, p: nat, h: Hit)
    requires p < |s| && MatchAt(s, p) == Some(h) && h.end == |s|
    ensures FindAll(s, p) == [h]
  {
    FindAllHit(s, p);
    assert FindAll(s, |s|) == [];
  }

  /** Where the scanner finds nothing, it goes on at the next position. */
  lemma FindAllSkip(s: string, i: nat)
    requires i < |s| && MatchAt(s, i).None?
    ensures FindAll(s, i) == FindAll(s, i + 1)
  {
  }

  /** Where the scanner finds a match, it goes on after it. */
  lemma FindAllHit(s: string, i: nat)
    requires i < |s| && MatchAt(s, i).Some?
    ensures FindAll(s, i) == [MatchAt(s, i).value] + FindAll(s, MatchAt(s, i).value.end)
  {
  }

  /** A text with no match at its start and no later `at ` yields no frames. */
  lemma NoMatchAfterStart(s: string)
    requires s != [] && MatchAt(s, 0).None?
    requires forall p :: 1 <= p < |s| - 2 ==> !(s[p] == 'a' && s[p + 1] == 't' && s[p + 2] == ' ')
    ensures ParseStackTrace(s, DefaultLimit) == []
  {
    FindAllWithoutAt(s, 1);
  }

  /** A stack-trace line of a Java method, indented as the JVM prints it:
      `\tat a.B.c(B.java:42)`. */
  lemma JavaFrameLayout(s: string)
    requires s == "\tat a.B.c(B.java:42)"
    ensures GoodLayout(s, 1, Layout(7, 9, 11, 19))
  {
    assert s[1] == 'a' && s[2] == 't' && s[3] == ' ';
    assert s[1..4] == "at ";
    assert s[11] == '.' && s[12] == 'j' && s[13] == 'a' && s[14] == 'v' && s[15] == 'a' && s[16] == ':';
    assert s[11..17] == ".java:";
  }

  lemma JavaFrameMatch(s: string)
    requires s == "\tat a.B.c(B.java:42)"
    ensures MatchAt(s, 1) == Some(Hit(1, 20, Frame("a.B", "B.java", "42")))
  {
    JavaFrameLayout(s);
    LayoutUnique(s, 1, Layout(7, 9, 11, 19));
    assert s[4..7] == "a.B";
    assert s[10..16] == "B.java";
    assert s[17..19] == "42";
  }

  lemma JavaFrameNoMatchAtTab(s: string)
    requires s == "\tat a.B.c(B.java:42)"
    ensures MatchAt(s, 0).None?
  {
    assert s[0] == '\t';
  }

  lemma ExampleJavaFrame(s: string)
    requires s == "\tat a.B.c(B.java:42)"
    ensures ParseStackTrace(s, DefaultLimit) == [Frame("a.B", "B.java", "42")]
  {
    JavaFrameMatch(s);
    JavaFrameNoMatchAtTab(s);
    SingleMatch(s, 1, Hit(1, 20, Frame("a.B", "B.java", "42")));
  }

  /** Without `.` right after the word run that follows `(`, there is no
      `.java:` tail and no match. */
  lemma NoFileTail(s: string, p: nat, q: nat, g: nat)
    requires p + 3 <= |s| && s[p..p + 3] == "at "
    requires RunEnd(s, p + 3, IsClassChar) == q && q < |s| && s[q] == '('
    requires RunEnd(s, q + 1, IsWordChar) == g && g < |s| && s[g] != '.'
    ensures FindLayout(s, p).None?
  {
    if g + 6 <= |s| {
      assert s[g..g + 6][0] == s[g];
    }
  }

  /** A native-method frame has no `(Name.java:digits)` tail. */
  lemma NativeFrameNoMatch(s: string)
    requires s == "at a.B.c(Native Method)"
    ensures MatchAt(s, 0).None?
  {
    assert s[0] == 'a' && s[1] == 't' && s[2] == ' ';
    assert s[0..3] == "at ";
    assert Run(s, 3, 8, IsClassChar) && s[8] == '(';
    RunEndAt(s, 3, 8, IsClassChar);
    assert Run(s, 9, 15, IsWordChar) && !IsWordChar(s[15]);
    RunEndAt(s, 9, 15, IsWordChar);
    NoFileTail(s, 0, 8, 15);
  }

  /** ... so it is skipped. */
  lemma ExampleNativeFrame(s: string)
    requires s == "at a.B.c(Native Method)"
    ensures ParseStackTrace(s, DefaultLimit) == []
  {
    NativeFrameNoMatch(s);
    NoMatchAfterStart(s);
  }

  /** A `$` (inner class or lambda) breaks the run of `[\w\.]` before the
      `(`, so the frame is skipped. */
  lemma InnerClassFrameNoMatch(s: string)
    requires s == "at a.B$1.c(B.java:7)"
    ensures MatchAt(s, 0).None?
  {
    assert s[0] == 'a' && s[1] == 't' && s[2] == ' ';
    assert s[0..3] == "at ";
    assert Run(s, 3, 6, IsClassChar) && s[6] == '$';
    RunEndAt(s, 3, 6, IsClassChar);
  }

  lemma ExampleInnerClassFrame(s: string)
    requires s == "at a.B$1.c(B.java:7)"
    ensures ParseStackTrace(s, DefaultLimit) == []
  {
    InnerClassFrameNoMatch(s);
    NoMatchAfterStart(s);
  }
}
