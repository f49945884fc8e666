/** POSIX paths as `pathlib.PurePosixPath` represents them: whether the path
    is rooted at `/`, and its list of components. Parsing drops empty and `.`
    components; `/` with a relative right side appends its components and
    with an absolute right side replaces the left side. */
module Paths {
  import opened Builtins

  datatype Path = Path(absolute: bool, parts: seq<string>)

  /** A component as `pathlib` keeps it. */
  predicate IsPart(x: string)
  {
    x != "" && x != "." && '/' !in x
  }

  predicate Valid(p: Path)
  {
    forall i :: 0 <= i < |p.parts| ==> IsPart(p.parts[i])
  }

  /** The pieces of a split that `pathlib` keeps as components. */
  function KeepParts(xs: seq<string>): (r: seq<string>)
    ensures (forall i :: 0 <= i < |xs| ==> '/' !in xs[i]) ==> forall i :: 0 <= i < |r| ==> IsPart(r[i])
    ensures (forall i :: 0 <= i < |xs| ==> IsPart(xs[i])) ==> r == xs
  {
    if xs == [] then []
    else if xs[0] == "" || xs[0] == "." then KeepParts(xs[1..])
    else [xs[0]] + KeepParts(xs[1..])
  }

  /** Filtering the pieces of two lists is filtering each in turn. */
  lemma {:induction false} KeepPartsAppend(a: seq<string>, b: seq<string>)
    ensures KeepParts(a + b) == KeepParts(a) + KeepParts(b)
  {
    if a == [] {
      assert a + b == b;
    } else {
      assert (a + b)[1..] == a[1..] + b;
      KeepPartsAppend(a[1..], b);
    }
  }

  /** A single piece is dropped exactly when it is empty or `.`. */
  lemma KeepPartsOne(x: string)
    ensures x == "" || x == "." ==> KeepParts([x]) == []
    ensures x != "" && x != "." ==> KeepParts([x]) == [x]
  {
    assert [x][1..] == [];
  }

  /** The components of `s` are the pieces of `s.split('/')` that are neither
      empty nor `.`, in order. */
  lemma {:induction false} ParseKeepsPieces(s: string, k: nat)
    requires k < |Split(s, '/')|
    ensures var ps := Split(s, '/');
      Parse(s).parts == KeepParts(ps[..k]) + KeepParts([ps[k]]) + KeepParts(ps[k + 1..])
  {
    var ps := Split(s, '/');
    assert ps == ps[..k] + [ps[k]] + ps[k + 1..];
    KeepPartsAppend(ps[..k] + [ps[k]], ps[k + 1..]);
    KeepPartsAppend(ps[..k], [ps[k]]);
  }

  /** Text that is one component parses to a relative path of that component. */
  lemma ParseOne(x: string)
    requires IsPart(x)
    ensures Parse(x) == Path(false, [x])
  {
    SplitNoSeparator(x, '/');
    KeepPartsOne(x);
  }

  /** A `/` between two texts joins their components: repeated slashes add
      no empty component. */
  lemma ParseAround(a: string, b: string)
    ensures Parse(a + "/" + b).parts == Parse(a).parts + Parse(b).parts
  {
    SplitAround(a, '/', b);
    KeepPartsAppend(Split(a, '/'), Split(b, '/'));
  }

  /** `PurePosixPath(s)`. */
  function Parse(s: string): (p: Path)
    ensures Valid(p)
    ensures p.absolute <==> s != [] && s[0] == '/'
  {
    Path(s != [] && s[0] == '/', KeepParts(Split(s, '/')))
  }

  /** `str(p)`. */
  function ToString(p: Path): string
  {
    if p.absolute then "/" + Join("/", p.parts)
    else if p.parts == [] then "."
    else Join("/", p.parts)
  }

  /** `base / rel`. */
  function Append(base: Path, rel: Path): (r: Path)
    ensures Valid(base) && Valid(rel) ==> Valid(r)
  {
    if rel.absolute then rel else Path(base.absolute, base.parts + rel.parts)
  }

  /** What `str(base / rel)` writes before the text of a relative `rel`. */
  function DirPrefix(base: Path): string
  {
    if base.parts == [] then (if base.absolute then "/" else "") else ToString(base) + "/"
  }

  /** Printing a path and parsing the text gives back the same path. */
  lemma ParseToString(p: Path)
    requires Valid(p)
    ensures Parse(ToString(p)) == p
  {
    var s := ToString(p);
    if p.parts == [] {
      if p.absolute {
        assert s == "/";
        assert s[1..] == "";
        assert Split(s, '/') == [""] + [""];
      } else {
        assert s == ".";
        SplitNoSeparator(s, '/');
      }
    } else {
      SplitJoin(p.parts, '/');
      if p.absolute {
        assert s == ['/'] + Join("/", p.parts);
        assert Split(s, '/') == [""] + p.parts;
        assert KeepParts([""] + p.parts) == KeepParts(p.parts);
      }
      assert IsPart(p.parts[0]);
      assert Join("/", p.parts)[0] == p.parts[0][0];
    }
  }

  /** Text that `pathlib` keeps exactly as written: every `/`-separated piece
      is a component. */
  predicate Normal(s: string)
  {
    var ps := Split(s, '/');
    forall i :: 0 <= i < |ps| ==> IsPart(ps[i])
  }

  /** Normal text survives parsing and printing unchanged. */
  lemma ToStringParse(s: string)
    requires Normal(s)
    ensures !Parse(s).absolute
    ensures ToString(Parse(s)) == s
  {
    var ps := Split(s, '/');
    JoinSplit(s, '/');
    assert Parse(s).parts == ps;
  }

  /** `str(base / rel)` for a relative `rel` with components is
      `DirPrefix(base)` followed by `str(rel)`. */
  lemma AppendToString(base: Path, rel: Path)
    requires Valid(base) && !rel.absolute && rel.parts != []
    ensures ToString(Append(base, rel)) == DirPrefix(base) + ToString(rel)
  {
    if base.parts != [] {
      JoinAppend("/", base.parts, rel.parts);
    } else {
      assert base.parts + rel.parts == rel.parts;
    }
  }
}
