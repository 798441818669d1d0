/**
 * Go's `path.Clean` and `path.Join` (`path/filepath` behaves the same on
 * Unix), which the packager uses to build every directory and file name.
 */
module Paths {
  import Strings

  /** A path element that cleaning leaves alone. */
  predicate IsPlainSegment(s: string)
  {
    s != "" && '/' !in s && s != "." && s != ".."
  }

  /**
   * The lexical processing of path.Clean over the elements between slashes:
   * empty and "." elements vanish, ".." removes the element before it, and a
   * ".." that has nothing to remove stays in a relative path and vanishes at
   * the root.
   */
  function Resolve(segs: seq<string>, rooted: bool, acc: seq<string>): seq<string>
  {
    if segs == [] then acc
    else
      var s := segs[0];
      if s == "" || s == "." then Resolve(segs[1..], rooted, acc)
      else if s == ".." then
        if |acc| > 0 && acc[|acc| - 1] != ".." then Resolve(segs[1..], rooted, acc[..|acc| - 1])
        else if rooted then Resolve(segs[1..], rooted, acc)
        else Resolve(segs[1..], rooted, acc + [".."])
      else Resolve(segs[1..], rooted, acc + [s])
  }

  /** path.Clean */
  function Clean(p: string): (r: string)
    ensures r != ""
  {
    if p == "" then "."
    else
      var rooted := p[0] == '/';
      var body := Strings.Join(Resolve(Strings.Split(p, '/'), rooted, []), "/");
      var r := (if rooted then "/" else "") + body;
      if r == "" then "." else r
  }

  /** The index of the first non-empty element, or |elems| when there is none. */
  function FirstNonEmpty(elems: seq<string>): (i: nat)
    ensures i <= |elems|
    ensures forall j :: 0 <= j < i ==> elems[j] == ""
    ensures i < |elems| ==> elems[i] != ""
  {
    if elems == [] then 0
    else if elems[0] != "" then 0
    else 1 + FirstNonEmpty(elems[1..])
  }

  /** path.Join: the elements from the first non-empty one, joined by slashes and cleaned. */
  function Join(elems: seq<string>): string
  {
    var i := FirstNonEmpty(elems);
    if i == |elems| then "" else Clean(Strings.Join(elems[i..], "/"))
  }

  /** A cleaned absolute path other than the root: "/" followed by plain elements. */
  predicate IsCleanAbsolute(p: string)
  {
    |p| >= 2 && p[0] == '/' &&
    var segs := Strings.Split(p[1..], '/');
    forall i :: 0 <= i < |segs| ==> IsPlainSegment(segs[i])
  }

  lemma {:induction false} ResolvePlain(segs: seq<string>, rooted: bool, acc: seq<string>)
    requires forall i :: 0 <= i < |segs| ==> IsPlainSegment(segs[i])
    ensures Resolve(segs, rooted, acc) == acc + segs
  {
    if segs != [] {
      ResolvePlain(segs[1..], rooted, acc + [segs[0]]);
      assert acc + [segs[0]] + segs[1..] == acc + segs;
    }
  }

  lemma {:induction false} JoinSplit(s: string, c: char)
    ensures Strings.Join(Strings.Split(s, c), [c]) == s
  {
    if s != [] {
      JoinSplit(s[1..], c);
      var rest := Strings.Split(s[1..], c);
      if s[0] == c {
        assert ([""] + rest)[1..] == rest;
      } else {
        assert ([[s[0]] + rest[0]] + rest[1..])[1..] == rest[1..];
        assert [s[0]] + s[1..] == s;
      }
    }
  }

  /** No part of a list of plain elements contains a slash. */
  lemma {:induction false} PlainHaveNoSlash(segs: seq<string>)
    requires forall i :: 0 <= i < |segs| ==> IsPlainSegment(segs[i])
    ensures forall i :: 0 <= i < |segs| ==> '/' !in segs[i]
  {
  }

  /** Cleaning "/" followed by plain elements changes nothing. */
  lemma {:induction false} CleanAbsolutePlain(segs: seq<string>)
    requires |segs| >= 1
    requires forall i :: 0 <= i < |segs| ==> IsPlainSegment(segs[i])
    ensures Clean("/" + Strings.Join(segs, "/")) == "/" + Strings.Join(segs, "/")
  {
    var j := Strings.Join(segs, "/");
    var p := "/" + j;
    assert p != "" && p[0] == '/';
    PlainHaveNoSlash(segs);
    Strings.SplitJoin(segs, '/');
    assert p[1..] == j;
    assert Strings.Split(p, '/') == [""] + segs;
    ResolvePlain(segs, true, []);
    assert ([""] + segs)[1..] == segs;
    assert Resolve([""] + segs, true, []) == segs;
    assert Clean(p) == "/" + Strings.Join(segs, "/");
  }

  /** A cleaned absolute path is "/" followed by the plain elements it splits into. */
  lemma {:induction false} CleanAbsoluteShape(p: string)
    requires IsCleanAbsolute(p)
    ensures p == "/" + Strings.Join(Strings.Split(p[1..], '/'), "/")
  {
    JoinSplit(p[1..], '/');
    assert p == [p[0]] + p[1..];
  }

  /**
   * Joining a cleaned absolute directory with plain elements is plain
   * concatenation with slashes: path.Join adds nothing and removes nothing.
   */
  lemma {:induction false} JoinUnderAbsolute(dir: string, segs: seq<string>)
    requires IsCleanAbsolute(dir)
    requires |segs| >= 1
    requires forall i :: 0 <= i < |segs| ==> IsPlainSegment(segs[i])
    ensures Join([dir] + segs) == dir + "/" + Strings.Join(segs, "/")
  {
    var head := Strings.Split(dir[1..], '/');
    var elems := [dir] + segs;
    CleanAbsoluteShape(dir);
    Strings.JoinAppend(head, segs, "/");
    var all := head + segs;
    assert forall i :: 0 <= i < |all| ==> IsPlainSegment(all[i]);
    CleanAbsolutePlain(all);
    assert elems[0] != "";
    assert FirstNonEmpty(elems) == 0;
    assert elems[0..] == elems;
    Strings.JoinAppend([dir], segs, "/");
    var joined := dir + "/" + Strings.Join(segs, "/");
    assert Strings.Join(elems, "/") == joined;
    assert joined == "/" + Strings.Join(all, "/");
    assert Join(elems) == Clean(joined);
  }

  /** path.Join of plain elements is plain concatenation with slashes. */
  lemma {:induction false} JoinPlain(segs: seq<string>)
    requires |segs| >= 1
    requires forall i :: 0 <= i < |segs| ==> IsPlainSegment(segs[i])
    ensures Join(segs) == Strings.Join(segs, "/")
  {
    var p := Strings.Join(segs, "/");
    PlainHaveNoSlash(segs);
    Strings.SplitJoin(segs, '/');
    ResolvePlain(segs, false, []);
    assert segs[0..] == segs;
    JoinHead(segs, "/");
    assert p != "" && p[0] != '/';
    assert Resolve(Strings.Split(p, '/'), false, []) == segs;
    assert Clean(p) == p;
  }

  lemma {:induction false} JoinHead(segs: seq<string>, sep: string)
    requires |segs| >= 1 && segs[0] != ""
    ensures |Strings.Join(segs, sep)| >= 1 && Strings.Join(segs, sep)[0] == segs[0][0]
  {
  }
}
